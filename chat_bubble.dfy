/**
 * ChatBubble.tsx: which text a bubble displays, the chain of LaTeX clean-up rewrites applied to it
 * before it is handed to the Markdown renderer, and `ChatMessageItem`'s response fallback.
 * Each `replace` with a global regular expression is modelled as a left-to-right, non-overlapping
 * rewrite; a pattern that matches one literal string is `Strings.ReplaceAll`.
 */
module Bubble {

  import opened Wrappers
  import opened Strings
  import opened Thought

  const Boxed := @"\boxed{"
  const BboxOpen := @"\bbox[border: 1px solid]{"

  /** The boxed antiderivative of the worked example that the component special-cases. */
  const ExampleBoxed := Boxed + @"\frac{e^{x}}{2} (\sin x - \cos x) + C}"
  const ExampleBbox := @"\bbox[border: 1px solid]{\frac{e^{x}}{2} (\sin x - \cos x) + C}"
  const BracketedExample := @"\[" + ExampleBoxed + @"\]"
  const SpacedExample := "[ " + ExampleBoxed + " ]"
  const FinalAnswerExample := "Final Answer: " + SpacedExample
  const FinalAnswerInline := "Final Answer: $" + ExampleBbox + "$"

  predicate NotCloseBrace(c: char) {
    c != '}'
  }

  predicate IsAsciiLetter(c: char) {
    'a' <= c <= 'z' || 'A' <= c <= 'Z'
  }

  /** After `head`, the regex `([^}]+)\}<tail>` matches: a non-empty run without `}`, then `}` and `tail`. */
  predicate BracedMatch(rest: string, tail: string) {
    var k := Span(rest, NotCloseBrace);
    k >= 1 && IsPrefix("}" + tail, rest[k..])
  }

  /**
   * `s.replace(/<head>([^}]+)\}<tail>/g, "<newHead>$1}")`: each match keeps its braced group, puts
   * `newHead` in place of `head` and drops `tail`.
   */
  function BracedRewrite(s: string, head: string, tail: string, newHead: string): (r: string)
    requires |head| > 0
    decreases |s|
  {
    if IsPrefix(head, s) && BracedMatch(s[|head|..], tail) then
      var rest := s[|head|..];
      var k := Span(rest, NotCloseBrace);
      newHead + rest[..k] + "}" + BracedRewrite(rest[k + 1 + |tail|..], head, tail, newHead)
    else if s == [] then []
    else [s[0]] + BracedRewrite(s[1..], head, tail, newHead)
  }

  /** `preprocessLatex`: three literal rewrites of the worked example, then every `\boxed{X}` to `\bbox`. */
  function PreprocessLatex(s: string): (r: string) {
    var a := ReplaceAll(s, ExampleBoxed, ExampleBbox);
    var b := ReplaceAll(a, BracketedExample, ExampleBbox);
    var c := ReplaceAll(b, SpacedExample, ExampleBbox);
    BracedRewrite(c, Boxed, "", BboxOpen)
  }

  /** `typeof content === "string" ? content : content.response || ""`; `|| ""` keeps an empty response empty. */
  function DisplayContent(c: Content): (t: string) {
    match c
    case Plain(text) => text
    case Structured(_, response) => response
  }

  /** The "Final Answer:" rewrite, guarded by `includes("Final Answer:")`. */
  function FinalAnswerStep(s: string): (r: string) {
    if Occurs(s, "Final Answer:") then ReplaceAll(s, FinalAnswerExample, FinalAnswerInline) else s
  }

  /** `.replace(/\\\\([a-zA-Z]+)/g, "\\$1")`: a doubled backslash before letters becomes a single one. */
  function UnescapeBeforeLetters(s: string): (r: string)
    decreases |s|
  {
    if |s| >= 3 && s[0] == '\\' && s[1] == '\\' && IsAsciiLetter(s[2]) then
      var k := Span(s[2..], IsAsciiLetter);
      "\\" + s[2..2 + k] + UnescapeBeforeLetters(s[2 + k..])
    else if s == [] then []
    else [s[0]] + UnescapeBeforeLetters(s[1..])
  }

  /** `.replace(/\\\\([^a-zA-Z\\])/g, "\\$1")`: a doubled backslash before any other character but `\`. */
  function UnescapeBeforeOther(s: string): (r: string)
    decreases |s|
  {
    if |s| >= 3 && s[0] == '\\' && s[1] == '\\' && !IsAsciiLetter(s[2]) && s[2] != '\\' then
      "\\" + [s[2]] + UnescapeBeforeOther(s[3..])
    else if s == [] then []
    else [s[0]] + UnescapeBeforeOther(s[1..])
  }

  /** The chain of `replace` calls that builds `processedContent` from `displayContent`. */
  function CleanupLatex(s: string): (r: string) {
    var a := UnescapeBeforeOther(UnescapeBeforeLetters(s));
    var b := ReplaceAll(a, @"\boxed\", @"\boxed");
    var c := ReplaceAll(b, @"\frac\", @"\frac");
    var d := ReplaceAll(c, @"\int\", @"\int");
    var e := ReplaceAll(d, @"\sum\", @"\sum");
    var f := ReplaceAll(e, @"\sin\", @"\sin");
    var g := ReplaceAll(f, @"\cos\", @"\cos");
    var h := BracedRewrite(g, @"\begin{", @"\", @"\begin{");
    var i := BracedRewrite(h, @"\end{", @"\", @"\end{");
    var j := ReplaceAll(i, @"\boxed{\frac{e^", @"\boxed{\frac{e^");
    ReplaceAll(j, ExampleBoxed, ExampleBbox)
  }

  /** The replacement of one display-math formula `$$F$$`. */
  function MathBlock(formula: string): (block: string) {
    "\n\n$$" + PreprocessLatex(Trim(formula)) + "$$\n\n"
  }

  /**
   * `.replace(/\$\$([\s\S]*?)\$\$/g, ...)` with the replacement `block`: each `$$` pairs with the
   * nearest following `$$`, and an unpaired `$$` is kept.
   */
  function PairRewrite(s: string, block: string -> string): (r: string)
    decreases |s|
  {
    if IsPrefix("$$", s) && Find(s[2..], "$$").Some? then
      var j := Find(s[2..], "$$").value;
      block(s[2..2 + j]) + PairRewrite(s[4 + j..], block)
    else if s == [] then []
    else [s[0]] + PairRewrite(s[1..], block)
  }

  /** The display-math step of ChatBubble.tsx: every `$$F$$` becomes `MathBlock(F)`. */
  function DisplayMath(s: string): (r: string) {
    PairRewrite(s, MathBlock)
  }

  /** The text `ChatBubble` gives to the Markdown renderer, before the inline-math pass. */
  function BubbleText(c: Content): (text: string) {
    DisplayMath(CleanupLatex(FinalAnswerStep(DisplayContent(c))))
  }

  /** What `ChatMessageItem` of ChatBubble.tsx renders. */
  datatype BubbleView =
    | TextBubble(isUser: bool, text: string)
    | ThoughtBubble(thought: Option<string>, response: string)

  /**
   * `ChatMessageItem`: string content goes to one bubble, on the user's side for a user message;
   * structured content shows its thought panel for a non-empty thought and an assistant bubble
   * for the response, or for the fallback text when the response is empty.
   */
  function MessageItem(m: Message): (v: BubbleView)
    ensures v.TextBubble? <==> m.content.Plain?
    ensures v.TextBubble? ==> v.isUser == (m.role == User) && v.text == BubbleText(m.content)
    ensures v.ThoughtBubble? ==> (v.thought.Some? <==> ShowsThought(m.content.thought))
    ensures v.ThoughtBubble? && v.thought.Some? ==> v.thought == m.content.thought
  {
    match m.content
    case Plain(_) => TextBubble(m.role == User, BubbleText(m.content))
    case Structured(thought, response) =>
      ThoughtBubble(if ShowsThought(thought) then thought else None,
                    BubbleText(Plain(ResponseOrFallback(response))))
  }

  // ---------------------------------------------------------------------------------------------
  // Properties of the rewrites

  /** A braced rewrite leaves text that does not contain its head unchanged. */
  lemma {:induction false} BracedRewriteAbsent(s: string, head: string, tail: string, newHead: string)
    requires |head| > 0 && !Occurs(s, head)
    ensures BracedRewrite(s, head, tail, newHead) == s
    decreases |s|
  {
    if s != [] {
      BracedRewriteAbsent(s[1..], head, tail, newHead);
    }
  }

  /** The only `}` of `s`, if any, is its last character. */
  predicate BraceOnlyLast(s: string) {
    forall i | 0 <= i < |s| - 1 :: s[i] != '}'
  }

  /** `p` has a `}` at index `k`, before its last character. */
  predicate BraceAt(p: string, k: nat) {
    k < |p| - 1 && p[k] == '}'
  }

  /** A text whose only `}` is its last character contains no pattern with an earlier `}`. */
  lemma {:induction false} NoOccurrenceEarlierBrace(s: string, p: string, k: nat)
    requires BraceOnlyLast(s) && BraceAt(p, k)
    ensures !Occurs(s, p)
    decreases |s|
  {
    if |s| > 0 {
      NoOccurrenceEarlierBrace(s[1..], p, k);
    }
  }

  lemma ExamplePatternsContainBoxed()
    ensures Occurs(ExampleBoxed, Boxed) && Occurs(BracketedExample, Boxed) && Occurs(SpacedExample, Boxed)
  {
    assert IsPrefix(Boxed, ExampleBoxed);
    OccursAfter(@"\[", ExampleBoxed, Boxed);
    OccursBefore(@"\[" + ExampleBoxed, @"\]", Boxed);
    OccursAfter("[ ", ExampleBoxed, Boxed);
    OccursBefore("[ " + ExampleBoxed, " ]", Boxed);
  }

  /** `preprocessLatex` returns text without `\boxed{` unchanged: every pattern it rewrites contains it. */
  lemma PreprocessLatexNoBoxed(s: string)
    requires !Occurs(s, Boxed)
    ensures PreprocessLatex(s) == s
  {
    ExamplePatternsContainBoxed();
    if Occurs(s, ExampleBoxed) { OccursTransitive(s, ExampleBoxed, Boxed); }
    if Occurs(s, BracketedExample) { OccursTransitive(s, BracketedExample, Boxed); }
    if Occurs(s, SpacedExample) { OccursTransitive(s, SpacedExample, Boxed); }
    ReplaceAllAbsent(s, ExampleBoxed, ExampleBbox);
    ReplaceAllAbsent(s, BracketedExample, ExampleBbox);
    ReplaceAllAbsent(s, SpacedExample, ExampleBbox);
    BracedRewriteAbsent(s, Boxed, "", BboxOpen);
  }

  /** The `}` that rules each example pattern out of a text whose only `}` is its last character. */
  lemma ExampleBraces()
    ensures BraceAt(ExampleBoxed, 17) && BraceAt(BracketedExample, 19) && BraceAt(SpacedExample, 19)
  {
  }

  /** A literal rewrite whose pattern has a `}` before its end keeps a text with no earlier `}`. */
  lemma BraceStepKeeps(s: string, p: string, k: nat, rep: string)
    requires BraceOnlyLast(s) && BraceAt(p, k)
    ensures ReplaceAll(s, p, rep) == s
  {
    NoOccurrenceEarlierBrace(s, p, k);
    ReplaceAllAbsent(s, p, rep);
  }

  /** The three example rewrites leave a text whose only `}` is its last character unchanged. */
  lemma ExampleStepsKeep(s: string)
    requires BraceOnlyLast(s)
    ensures ReplaceAll(ReplaceAll(ReplaceAll(s, ExampleBoxed, ExampleBbox), BracketedExample, ExampleBbox),
                       SpacedExample, ExampleBbox) == s
  {
    ExampleBraces();
    ThreeStepsKeep(s, ExampleBoxed, 17, BracketedExample, 19, SpacedExample, 19, ExampleBbox);
  }

  /** Three literal rewrites, each with a `}` before the end of its pattern, keep such a text. */
  lemma ThreeStepsKeep(s: string, p1: string, k1: nat, p2: string, k2: nat, p3: string, k3: nat, rep: string)
    requires BraceOnlyLast(s) && BraceAt(p1, k1) && BraceAt(p2, k2) && BraceAt(p3, k3)
    ensures ReplaceAll(ReplaceAll(ReplaceAll(s, p1, rep), p2, rep), p3, rep) == s
  {
    BraceStepKeeps(s, p1, k1, rep);
    BraceStepKeeps(s, p2, k2, rep);
    BraceStepKeeps(s, p3, k3, rep);
  }

  /** The `[^}]+` run of `X}`, X free of `}`, is all of X. */
  lemma SpanToBrace(x: string)
    requires '}' !in x
    ensures Span(x + "}", NotCloseBrace) == |x|
  {
    var t := x + "}";
    assert t[|x|] == '}';
    forall i | 0 <= i < |x| ensures NotCloseBrace(t[i]) {
      assert t[i] == x[i] && x[i] in x;
    }
  }

  /** A braced rewrite without tail turns `<head>X}`, X non-empty and free of `}`, into `<newHead>X}`. */
  lemma BracedRewriteSingle(x: string, head: string, newHead: string)
    requires |head| > 0 && x != [] && '}' !in x
    ensures BracedRewrite(head + x + "}", head, "", newHead) == newHead + x + "}"
  {
    var s := head + x + "}";
    var rest := s[|head|..];
    assert rest == x + "}";
    SpanToBrace(x);
    var k := |x|;
    assert rest[k..] == "}";
    assert rest[..k] == x;
    assert IsPrefix(head, s);
    assert BracedMatch(rest, "");
    assert rest[k + 1..] == [];
    assert BracedRewrite([], head, "", newHead) == [];
  }

  /** A single `\boxed{X}`, with X non-empty and free of `}`, becomes `\bbox[border: 1px solid]{X}`. */
  lemma PreprocessLatexSingleBoxed(x: string)
    requires x != [] && '}' !in x
    ensures PreprocessLatex(Boxed + x + "}") == BboxOpen + x + "}"
  {
    var s := Boxed + x + "}";
    assert BraceOnlyLast(s) by {
      forall i | 0 <= i < |s| - 1 ensures s[i] != '}' {
        if i >= |Boxed| { assert s[i] == x[i - |Boxed|]; }
      }
    }
    ExampleStepsKeep(s);
    BracedRewriteSingle(x, Boxed, BboxOpen);
  }

  /** The "Final Answer:" guard is redundant: the rewritten pattern itself contains "Final Answer:". */
  lemma FinalAnswerStepUnguarded(s: string)
    ensures FinalAnswerStep(s) == ReplaceAll(s, FinalAnswerExample, FinalAnswerInline)
    ensures !Occurs(s, "Final Answer:") ==> FinalAnswerStep(s) == s
  {
    if !Occurs(s, "Final Answer:") {
      assert IsPrefix("Final Answer:", FinalAnswerExample);
      if Occurs(s, FinalAnswerExample) { OccursTransitive(s, FinalAnswerExample, "Final Answer:"); }
      ReplaceAllAbsent(s, FinalAnswerExample, FinalAnswerInline);
    }
  }

  /** The `\boxed{\frac{e^` step of the chain replaces that literal by itself: it is the identity. */
  lemma ExampleFracStepIdentity(s: string)
    ensures ReplaceAll(s, @"\boxed{\frac{e^", @"\boxed{\frac{e^") == s
  {
    ReplaceAllSelf(s, @"\boxed{\frac{e^");
  }

  lemma {:induction false} UnescapeBeforeLettersNoBackslash(s: string)
    requires '\\' !in s
    ensures UnescapeBeforeLetters(s) == s
    decreases |s|
  {
    if s != [] {
      assert forall c | c in s[1..] :: c in s;
      UnescapeBeforeLettersNoBackslash(s[1..]);
    }
  }

  lemma {:induction false} UnescapeBeforeOtherNoBackslash(s: string)
    requires '\\' !in s
    ensures UnescapeBeforeOther(s) == s
    decreases |s|
  {
    if s != [] {
      assert forall c | c in s[1..] :: c in s;
      UnescapeBeforeOtherNoBackslash(s[1..]);
    }
  }

  /** A pattern that starts with a backslash does not occur in text without one. */
  lemma AbsentWithoutBackslash(s: string, p: string)
    requires '\\' !in s && |p| > 0 && p[0] == '\\'
    ensures !Occurs(s, p)
  {
    if Occurs(s, p) { OccursHasChar(s, p, 0); }
  }

  lemma {:induction false} DisplayMathNoDollar(s: string)
    requires '$' !in s
    ensures DisplayMath(s) == s
    decreases |s|
  {
    if s != [] {
      assert s[0] != '$' by { assert s[0] in s; }
      assert forall c | c in s[1..] :: c in s;
      assert s == [s[0]] + s[1..];
      PairRewritePlainChar(s[0], s[1..], MathBlock);
      DisplayMathNoDollar(s[1..]);
    }
  }

  /** Text without backslashes and dollar signs passes through the whole chain unchanged. */
  lemma BubbleTextVerbatim(s: string)
    requires '\\' !in s && '$' !in s
    ensures BubbleText(Plain(s)) == s
  {
    FinalAnswerStepUnguarded(s);
    assert FinalAnswerExample[16] == '\\';
    if Occurs(s, FinalAnswerExample) { OccursHasChar(s, FinalAnswerExample, 16); }
    ReplaceAllAbsent(s, FinalAnswerExample, FinalAnswerInline);
    UnescapeBeforeLettersNoBackslash(s);
    UnescapeBeforeOtherNoBackslash(s);
    AbsentWithoutBackslash(s, @"\boxed\");
    AbsentWithoutBackslash(s, @"\frac\");
    AbsentWithoutBackslash(s, @"\int\");
    AbsentWithoutBackslash(s, @"\sum\");
    AbsentWithoutBackslash(s, @"\sin\");
    AbsentWithoutBackslash(s, @"\cos\");
    AbsentWithoutBackslash(s, @"\begin{");
    AbsentWithoutBackslash(s, @"\end{");
    AbsentWithoutBackslash(s, @"\boxed{\frac{e^");
    AbsentWithoutBackslash(s, ExampleBoxed);
    ReplaceAllAbsent(s, @"\boxed\", @"\boxed");
    ReplaceAllAbsent(s, @"\frac\", @"\frac");
    ReplaceAllAbsent(s, @"\int\", @"\int");
    ReplaceAllAbsent(s, @"\sum\", @"\sum");
    ReplaceAllAbsent(s, @"\sin\", @"\sin");
    ReplaceAllAbsent(s, @"\cos\", @"\cos");
    BracedRewriteAbsent(s, @"\begin{", @"\", @"\begin{");
    BracedRewriteAbsent(s, @"\end{", @"\", @"\end{");
    ReplaceAllAbsent(s, @"\boxed{\frac{e^", @"\boxed{\frac{e^");
    ReplaceAllAbsent(s, ExampleBoxed, ExampleBbox);
    DisplayMathNoDollar(s);
  }

  /**
   * No `$$` can start inside `a`, whatever follows it: `a` holds no `$$` and does not end with `$`.
   */
  predicate NoPairStart(a: string) {
    !Occurs(a + "$", "$$")
  }

  /** A `$$` starting at a position `i < |a|` of `a + t` is a `$$` in `a + "$"`. */
  lemma {:induction false} PairStartsInside(a: string, t: string, i: nat)
    requires i < |a|
    ensures IsPrefix("$$", (a + t)[i..]) ==> !NoPairStart(a)
  {
    var s := a + t;
    var u := a + "$";
    if IsPrefix("$$", s[i..]) {
      assert s[i] == '$' && s[i + 1] == '$';
      assert u[i] == a[i] == s[i];
      if i + 1 < |a| {
        assert u[i + 1] == a[i + 1] == s[i + 1];
      } else {
        assert u[i + 1] == '$';
      }
      assert u[i..i + 2] == "$$";
      OccursAt(u, "$$", i);
    }
  }

  /** Dropping the first character of a text in which no `$$` starts keeps it so. */
  lemma {:induction false} NoPairStartTail(a: string)
    requires a != []
    ensures NoPairStart(a) ==> NoPairStart(a[1..])
  {
    var u := a + "$";
    var u1 := a[1..] + "$";
    assert u == [a[0]] + u1;
    if Occurs(u1, "$$") {
      OccursAfter([a[0]], u1, "$$");
    }
  }

  /** In `F$$R` where no `$$` starts inside F, the nearest `$$` is the one right after F. */
  lemma {:induction false} FindClosing(f: string, r: string)
    requires NoPairStart(f)
    ensures Find(f + "$$" + r, "$$") == Some(|f|)
  {
    var t := f + "$$" + r;
    var tail := "$$" + r;
    assert t == f + tail;
    assert t[|f|..] == tail;
    assert IsPrefix("$$", t[|f|..]);
    forall i | 0 <= i < |f| ensures !IsPrefix("$$", t[i..]) {
      PairStartsInside(f, tail, i);
    }
    assert t[..|f|] + t[|f|..] == t;
    OccursAfter(t[..|f|], t[|f|..], "$$");
  }

  /** The rewrite at a `$$` whose nearest closing `$$` is at offset `j` after it. */
  lemma {:induction false} PairRewriteAtPair(s: string, j: nat, block: string -> string)
    requires IsPrefix("$$", s) && Find(s[2..], "$$") == Some(j)
    ensures PairRewrite(s, block) == block(s[2..2 + j]) + PairRewrite(s[4 + j..], block)
  {
  }

  /** A text that starts with `$$F$$`, no `$$` starting inside F, puts F's block before the rest. */
  lemma {:induction false} PairRewriteAtBlock(f: string, b: string, block: string -> string)
    requires NoPairStart(f)
    ensures PairRewrite("$$" + f + "$$" + b, block) == block(f) + PairRewrite(b, block)
  {
    var s := "$$" + f + "$$" + b;
    var t := f + "$$" + b;
    assert s == "$$" + t;
    assert s[2..] == t;
    assert IsPrefix("$$", s);
    FindClosing(f, b);
    assert s[2..2 + |f|] == f;
    assert s[4 + |f|..] == b;
    PairRewriteAtPair(s, |f|, block);
  }

  /** A character that does not open `$$` is copied by the rewrite. */
  lemma {:induction false} PairRewritePlainChar(c: char, t: string, block: string -> string)
    requires !IsPrefix("$$", [c] + t)
    ensures PairRewrite([c] + t, block) == [c] + PairRewrite(t, block)
  {
    var s := [c] + t;
    assert s[1..] == t;
  }

  /** The first character of a text in which no `$$` starts is copied, whatever follows. */
  lemma {:induction false} PairRewriteFirstChar(a: string, t: string, block: string -> string)
    requires a != [] && NoPairStart(a)
    ensures PairRewrite(a + t, block) == [a[0]] + PairRewrite(a[1..] + t, block)
  {
    var s1 := a[1..] + t;
    assert a + t == [a[0]] + s1;
    PairStartsInside(a, t, 0);
    assert (a + t)[0..] == a + t;
    PairRewritePlainChar(a[0], s1, block);
  }

  /** Text in which no `$$` starts is kept as it is, whatever follows it. */
  lemma {:induction false} PairRewritePlainPrefix(a: string, t: string, block: string -> string)
    requires NoPairStart(a)
    ensures PairRewrite(a + t, block) == a + PairRewrite(t, block)
    decreases |a|
  {
    if a == [] {
      assert a + t == t;
    } else {
      PairRewriteFirstChar(a, t, block);
      NoPairStartTail(a);
      PairRewritePlainPrefix(a[1..], t, block);
      ConsStep(PairRewrite(a + t, block), PairRewrite(a[1..] + t, block), a, PairRewrite(t, block));
    }
  }

  /** `x = [a[0]] + y` and `y = a[1..] + d` give `x = a + d`. */
  lemma ConsStep(x: string, y: string, a: string, d: string)
    requires a != [] && x == [a[0]] + y && y == a[1..] + d
    ensures x == a + d
  {
    assert [a[0]] + a[1..] == a;
  }

  /**
   * The display-math step maps `$$F$$` to `"\n\n$$" + preprocessLatex(F.trim()) + "$$\n\n"` and
   * carries on after it; text before it in which no `$$` starts is kept as it is.
   */
  lemma DisplayMathBlock(a: string, f: string, b: string)
    requires NoPairStart(a) && NoPairStart(f)
    ensures DisplayMath(a + "$$" + f + "$$" + b) == a + MathBlock(f) + DisplayMath(b)
  {
    var t := "$$" + f + "$$" + b;
    assert a + "$$" + f + "$$" + b == a + t;
    PairRewritePlainPrefix(a, t, MathBlock);
    PairRewriteAtBlock(f, b, MathBlock);
  }

  /** An empty structured response is shown as the fallback text, which the chain leaves as it is. */
  lemma EmptyResponseShowsFallback(m: Message)
    requires m.content.Structured? && m.content.response == ""
    ensures MessageItem(m).ThoughtBubble? && MessageItem(m).response == NoResponseText
  {
    FallbackIsPlain();
    BubbleTextVerbatim(NoResponseText);
  }

  /** The fallback text holds neither backslashes nor dollar signs. */
  lemma FallbackIsPlain()
    ensures '\\' !in NoResponseText && '$' !in NoResponseText
  {
  }

  /** A non-empty structured response is kept: its bubble shows the response's own rewritten text. */
  lemma NonEmptyResponseKept(m: Message)
    requires m.content.Structured? && m.content.response != ""
    ensures MessageItem(m).ThoughtBubble?
    ensures MessageItem(m).response == BubbleText(Plain(m.content.response))
    ensures BubbleText(Plain(m.content.response)) == BubbleText(m.content)
  {
  }
}
