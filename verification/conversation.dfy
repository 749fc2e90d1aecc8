/** The chat controller: a transcript that only grows, the draft in the text box, the
    loading flag, and the number of scheduled reply callbacks. A send is accepted only while
    idle, so replies never interleave and the transcript alternates user and assistant turns. */
module Conversation {
  import JsString

  datatype Role = User | Assistant

  /** A transcript entry. Identifiers and timestamps are not modelled. */
  datatype Message = Message(role: Role, content: string)

  /** `timers` counts reply callbacks scheduled but not yet run. */
  datatype ChatState = ChatState(messages: seq<Message>, draft: string, loading: bool, timers: nat)

  const Initial: ChatState := ChatState([], "", false, 0)

  /** The opening word of every assistant reply. */
  const Greeting: string := "Hello!"

  /** `getAgentIntroduction`: the fixed text of every assistant reply. */
  const Introduction: string :=
    Greeting + " I'm your Resume AI Agent. I'm here to help you optimize your resume to perfectly match job descriptions.\n\nHere's what I can do for you:\n\U{2022} Analyze your resume and identify areas for improvement\n\U{2022} Match your skills and experience to specific job requirements\n\U{2022} Suggest targeted improvements to make your resume stand out\n\U{2022} Help you tailor your resume for different positions\n\nTo get started, please upload your resume PDF and share a job description (either by pasting the text or providing a URL). I'll then analyze both and provide personalized recommendations to help you land that interview!\n\nWhat would you like to work on today?"

  /** The guard of `handleSendMessage`: something other than white space has been typed and
      no reply is awaited. */
  predicate CanSend(s: ChatState)
  {
    JsString.Trim(s.draft) != [] && !s.loading
  }

  /** The send button's `disabled` attribute. */
  predicate SendDisabled(s: ChatState)
  {
    JsString.Trim(s.draft) == [] || s.loading
  }

  /** `handleSendMessage`: when the guard holds, one user message carrying the trimmed draft
      is appended, the draft is cleared, the loading flag is set and one reply callback is
      scheduled; otherwise nothing changes. */
  function Send(s: ChatState): (r: ChatState)
    ensures !CanSend(s) ==> r == s
    ensures CanSend(s) ==> && r.messages == s.messages + [Message(User, JsString.Trim(s.draft))]
                           && r.draft == [] && r.loading && r.timers == s.timers + 1
  {
    if JsString.Trim(s.draft) == [] || s.loading then s
    else ChatState(s.messages + [Message(User, JsString.Trim(s.draft))], "", true, s.timers + 1)
  }

  /** The button is disabled exactly when pressing Enter would do nothing. */
  lemma SendDisabledIffNoOp(s: ChatState)
    ensures SendDisabled(s) <==> Send(s) == s
  {
    if !SendDisabled(s) {
      assert |Send(s).messages| == |s.messages| + 1;
    }
  }

  /** A draft of white space only is never sent, whatever else the state holds. */
  lemma BlankDraftIsNoOp(s: ChatState)
    requires JsString.AllWhiteSpace(s.draft)
    ensures Send(s) == s
  {
    JsString.TrimEmptyIff(s.draft);
  }

  /** The body of the reply callback: one assistant message with the introduction text is
      appended and the loading flag cleared; the draft typed meanwhile is kept. */
  function Complete(s: ChatState): (r: ChatState)
    requires s.timers > 0
    ensures r.messages == s.messages + [Message(Assistant, Introduction)]
    ensures !r.loading && r.draft == s.draft && r.timers == s.timers - 1
  {
    ChatState(s.messages + [Message(Assistant, Introduction)], s.draft, false, s.timers - 1)
  }

  /** What can happen to the chat panel: typing (the text area's change handler), a key press
      in the text area, a click on the send button, and a scheduled reply callback running. */
  datatype Event =
    | Type(text: string)
    | KeyDown(key: string, shift: bool)
    | ClickSend
    | TimerFires

  /** Enter without Shift sends; every other key leaves the editing to the text area. A
      disabled button receives no click. A callback runs only if one was scheduled. */
  function Step(s: ChatState, e: Event): (r: ChatState)
    ensures e == KeyDown("Enter", false) ==> r == Send(s)
    ensures e.KeyDown? && e != KeyDown("Enter", false) ==> r == s
    ensures e.ClickSend? ==> r == Send(s)
    ensures e.Type? ==> r == s.(draft := e.text)
    ensures e.TimerFires? && s.timers == 0 ==> r == s
    ensures e.TimerFires? && s.timers > 0 ==> r == Complete(s)
  {
    SendDisabledIffNoOp(s);
    match e
    case Type(text) => s.(draft := text)
    case KeyDown(key, shift) => if key == "Enter" && !shift then Send(s) else s
    case ClickSend => if SendDisabled(s) then s else Send(s)
    case TimerFires => if s.timers > 0 then Complete(s) else s
  }

  function Run(s: ChatState, events: seq<Event>): ChatState
    decreases |events|
  {
    if |events| == 0 then s else Run(Step(s, events[0]), events[1..])
  }

  /** The role the alternation prescribes at position `i`. */
  function TurnRole(i: nat): Role
  {
    if i % 2 == 0 then User else Assistant
  }

  /** The introduction neither starts nor ends with white space and is not blank: like every
      user turn, it is shown exactly as it would be after trimming. */
  lemma IntroductionTight()
    ensures Introduction != [] && JsString.Tight(Introduction)
  {
    assert Introduction[0] == Greeting[0] == 'H';
    assert Introduction[|Introduction| - 1] == '?';
  }

  /** The shape of every reachable transcript. */
  predicate WellFormed(m: Message, i: nat)
  {
    && m.role == TurnRole(i)
    && (m.role == User ==> m.content != [] && JsString.Tight(m.content))
    && (m.role == Assistant ==> m.content == Introduction)
  }

  /** Turns alternate starting with the user, user turns are trimmed and non-empty, every
      reply is the introduction, a reply is awaited exactly when the transcript has odd
      length, and at most one callback is ever outstanding. */
  predicate Invariant(s: ChatState)
  {
    && (forall i :: 0 <= i < |s.messages| ==> WellFormed(s.messages[i], i))
    && (s.loading <==> |s.messages| % 2 == 1)
    && s.timers == (if s.loading then 1 else 0)
  }

  lemma SendPreservesInvariant(s: ChatState)
    requires Invariant(s)
    ensures Invariant(Send(s))
  {
    if CanSend(s) {
      JsString.TrimShape(s.draft);
      var r := Send(s);
      assert WellFormed(r.messages[|s.messages|], |s.messages|);
    }
  }

  lemma StepPreservesInvariant(s: ChatState, e: Event)
    requires Invariant(s)
    ensures Invariant(Step(s, e))
  {
    match e
    case Type(_) =>
    case KeyDown(_, _) => SendPreservesInvariant(s);
    case ClickSend => SendPreservesInvariant(s);
    case TimerFires =>
      if s.timers > 0 {
        var r := Complete(s);
        assert WellFormed(r.messages[|s.messages|], |s.messages|);
      }
  }

  lemma {:induction false} RunPreservesInvariant(s: ChatState, events: seq<Event>)
    requires Invariant(s)
    ensures Invariant(Run(s, events))
    decreases |events|
  {
    if |events| > 0 {
      StepPreservesInvariant(s, events[0]);
      RunPreservesInvariant(Step(s, events[0]), events[1..]);
    }
  }

  /** Every state reachable from the empty conversation satisfies the invariant. */
  lemma ReachableInvariant(events: seq<Event>)
    ensures Invariant(Run(Initial, events))
  {
    RunPreservesInvariant(Initial, events);
  }

  /** Every message in a reachable transcript, the user's and the assistant's alike, is
      non-empty and already trimmed. */
  lemma ReachableMessagesTrimmed(events: seq<Event>)
    ensures var m := Run(Initial, events).messages;
            forall i :: 0 <= i < |m| ==> m[i].content != [] && JsString.Tight(m[i].content)
  {
    ReachableInvariant(events);
    IntroductionTight();
    var m := Run(Initial, events).messages;
    forall i | 0 <= i < |m|
      ensures m[i].content != [] && JsString.Tight(m[i].content)
    {
      assert WellFormed(m[i], i);
    }
  }

  /** The transcript is append-only, one message per event at most. */
  lemma {:induction false} RunAppendsOnly(s: ChatState, events: seq<Event>)
    ensures s.messages <= Run(s, events).messages
    ensures |Run(s, events).messages| <= |s.messages| + |events|
    decreases |events|
  {
    if |events| > 0 {
      RunAppendsOnly(Step(s, events[0]), events[1..]);
    }
  }

  lemma TrimHello()
    ensures JsString.Trim("Hello") == "Hello"
  {
    assert [] + "Hello" + [] == "Hello";
    JsString.TrimUnique([], "Hello", []);
  }

  lemma RunTwo(s: ChatState, a: Event, rest: seq<Event>)
    ensures Run(s, [a] + rest) == Run(Step(s, a), rest)
  {
    assert ([a] + rest)[1..] == rest;
  }

  /** Typing "Hello" and sending, then typing "World" and sending before the reply, then the
      reply arriving: the second send is refused, the transcript is the user's greeting and
      the introduction, and "World" stays in the text box. */
  lemma HelloWorldScenario()
    ensures Run(Initial, [Type("Hello"), ClickSend, Type("World"), ClickSend, TimerFires])
         == ChatState([Message(User, "Hello"), Message(Assistant, Introduction)], "World", false, 0)
  {
    TrimHello();
    var s1 := ChatState([], "Hello", false, 0);
    var s2 := ChatState([Message(User, "Hello")], "", true, 1);
    var s3 := s2.(draft := "World");
    var s5 := ChatState([Message(User, "Hello"), Message(Assistant, Introduction)], "World", false, 0);
    assert Step(Initial, Type("Hello")) == s1;
    assert Step(s1, ClickSend) == s2;
    assert Step(s2, Type("World")) == s3;
    assert Step(s3, ClickSend) == s3;
    assert Step(s3, TimerFires) == s5;
    RunTwo(Initial, Type("Hello"), [ClickSend, Type("World"), ClickSend, TimerFires]);
    RunTwo(s1, ClickSend, [Type("World"), ClickSend, TimerFires]);
    RunTwo(s2, Type("World"), [ClickSend, TimerFires]);
    RunTwo(s3, ClickSend, [TimerFires]);
    RunTwo(s3, TimerFires, []);
  }
}
