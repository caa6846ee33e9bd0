/** `messages_from_events`: the message list a session log stands for. */
module Rebuild {
  import opened Options
  import opened Text
  import opened Transcript
  import opened Stale
  import Dsml
  import DsmlMarkers

  datatype Event =
    | TurnStart(input: string)
    | AssistantChunk(text: Option<string>, calls: seq<ToolCall>, reasoning: Option<string>)
    | ToolResult(callId: string, content: string)
    | Thinking(thought: string)
    | Other

  /** `pending` is reasoning that has not met its visible frame yet. */
  datatype Log = Log(messages: seq<Message>, pending: string)

  function TextOf(text: Option<string>): string {
    match text
    case Some(t) => t
    case None => ""
  }

  predicate PlainText(m: Message) {
    m.role == Assistant && m.calls == []
  }

  /** Reasoning that the log recorded as thinking already is not taken twice. */
  function Gather(pending: string, reasoning: Option<string>): string {
    if reasoning.Some? && !EndsWith(pending, reasoning.value) then pending + reasoning.value else pending
  }

  function NonEmpty(s: string): Option<string> {
    if s == "" then None else Some(s)
  }

  /** A message that grows by one more fragment. */
  function Grown(m: Message, text: string, reasoning: string): Message {
    m.(content := m.content + text,
       reasoning := if reasoning == "" then m.reasoning else Some(TextOf(m.reasoning) + reasoning))
  }

  function AddAssistant(ms: seq<Message>, text: string, calls: seq<ToolCall>, reasoning: string): seq<Message> {
    if calls == [] && ms != [] && PlainText(ms[|ms| - 1]) then
      ms[|ms| - 1 := Grown(ms[|ms| - 1], text, reasoning)]
    else
      ms + [Message(Assistant, text, [], calls, NonEmpty(reasoning), None)]
  }

  function Step(log: Log, event: Event): Log {
    match event
    case TurnStart(input) => Log(log.messages + [Message(User, input, [], [], None, None)], "")
    case AssistantChunk(text, calls, reasoning) =>
      var pending := Gather(log.pending, reasoning);
      if TextOf(text) == "" && calls == [] then log.(pending := pending)
      else Log(AddAssistant(log.messages, TextOf(text), calls, pending), "")
    case ToolResult(callId, content) =>
      Log(log.messages + [Message(Tool, CompressToolContext(content), [], [], None, Some(callId))], "")
    case Thinking(thought) => log.(pending := log.pending + thought)
    case Other => log
  }

  function Steps(log: Log, events: seq<Event>): Log
    decreases |events|
  {
    if events == [] then log else Steps(Step(log, events[0]), events[1..])
  }

  /** Markup of tool calls that old logs left in visible text is removed. */
  function Clean(m: Message): Message {
    if m.role == Assistant then m.(content := Dsml.Strip(m.content)) else m
  }

  function CleanAll(ms: seq<Message>): (r: seq<Message>)
    ensures |r| == |ms|
  {
    seq(|ms|, i requires 0 <= i < |ms| => Clean(ms[i]))
  }

  function Opening(prompt: string): Log {
    Log([SystemNote(prompt)], "")
  }

  function Rebuilt(prompt: string, events: seq<Event>): seq<Message> {
    CleanAll(Steps(Opening(prompt), events).messages)
  }

  // ---------- the loop ----------

  method MessagesFromEvents(prompt: string, events: seq<Event>) returns (messages: seq<Message>)
    ensures messages == Rebuilt(prompt, events)
  {
    hide CompressToolContext, Dsml.Strip;
    messages := [SystemNote(prompt)];
    var pending := "";
    for i := 0 to |events|
      invariant Steps(Opening(prompt), events) == Steps(Log(messages, pending), events[i..])
    {
      assert events[i..][1..] == events[i + 1..];
      ghost var after := Step(Log(messages, pending), events[i]);
      match events[i] {
        case TurnStart(input) =>
          pending := "";
          messages := messages + [Message(User, input, [], [], None, None)];
        case AssistantChunk(text, calls, reasoning) =>
          messages, pending := OnChunk(messages, pending, TextOf(text), calls, reasoning);
        case ToolResult(callId, content) =>
          pending := "";
          messages := messages + [Message(Tool, CompressToolContext(content), [], [], None, Some(callId))];
        case Thinking(thought) =>
          pending := pending + thought;
        case Other =>
      }
      assert after == Log(messages, pending);
    }
    ghost var folded := messages;
    for i := 0 to |messages|
      invariant |messages| == |folded|
      invariant forall k :: 0 <= k < i ==> messages[k] == Clean(folded[k])
      invariant forall k :: i <= k < |folded| ==> messages[k] == folded[k]
    {
      if messages[i].role == Assistant {
        messages := messages[i := messages[i].(content := Dsml.Strip(messages[i].content))];
      }
    }
  }

  method OnChunk(ms: seq<Message>, was: string, text: string, calls: seq<ToolCall>, reasoning: Option<string>)
    returns (messages: seq<Message>, pending: string)
    ensures Log(messages, pending) == Step(Log(ms, was), AssistantChunk(Some(text), calls, reasoning))
  {
    messages, pending := ms, was;
    if reasoning.Some? && !EndsWith(pending, reasoning.value) {
      pending := pending + reasoning.value;
    }
    if text == "" && calls == [] {
      return;
    }
    var taken := pending;
    pending := "";
    if calls == [] && messages != [] {
      var at := |messages| - 1;
      var last := messages[at];
      if last.role == Assistant && last.calls == [] {
        messages := messages[at := last.(content := last.content + text)];
        if taken != "" {
          messages := messages[at := messages[at].(reasoning := Some(TextOf(last.reasoning) + taken))];
        }
        return;
      }
    }
    messages := messages + [Message(Assistant, text, [], calls, NonEmpty(taken), None)];
  }

  // ---------- fragments of one answer ----------

  /** One visible answer, cut into text frames; its reasoning rides on the first. */
  function Fragments(pieces: seq<string>, reasoning: Option<string>): seq<Event> {
    if pieces == [] then []
    else [AssistantChunk(Some(pieces[0]), [], reasoning)] + Fragments(pieces[1..], None)
  }

  lemma {:induction false} TwoFragments(log: Log, a: string, b: string, reasoning: Option<string>)
    ensures Step(Step(log, AssistantChunk(Some(a), [], reasoning)), AssistantChunk(Some(b), [], None))
            == Step(log, AssistantChunk(Some(a + b), [], reasoning))
  {
    var ms, pending := log.messages, Gather(log.pending, reasoning);
    if a == "" {
      assert a + b == b;
    } else if b == "" {
      assert a + b == a;
    } else {
      TwoAssistants(ms, a, b, pending);
    }
  }

  lemma {:induction false} TwoAssistants(ms: seq<Message>, a: string, b: string, reasoning: string)
    ensures AddAssistant(AddAssistant(ms, a, [], reasoning), b, [], "") == AddAssistant(ms, a + b, [], reasoning)
  {
    var mid, all := AddAssistant(ms, a, [], reasoning), AddAssistant(ms, a + b, [], reasoning);
    if ms != [] && PlainText(ms[|ms| - 1]) {
      Assoc(ms[|ms| - 1].content, a, b);
    }
    assert PlainText(mid[|mid| - 1]) && |mid| == |all|;
  }

  /** However an answer is cut into frames, the log rebuilds to the same messages. */
  lemma {:induction false} FragmentInvariance(log: Log, pieces: seq<string>, reasoning: Option<string>)
    requires pieces != []
    ensures Steps(log, Fragments(pieces, reasoning))
            == Step(log, AssistantChunk(Some(Concat(pieces)), [], reasoning))
    decreases |pieces|
  {
    hide Step;
    var first := AssistantChunk(Some(pieces[0]), [], reasoning);
    var rest := Fragments(pieces[1..], None);
    assert Fragments(pieces, reasoning)[1..] == rest;
    if |pieces| == 1 {
      assert rest == [] && Concat(pieces[1..]) == "";
      assert Concat(pieces) == pieces[0];
    } else {
      FragmentInvariance(Step(log, first), pieces[1..], None);
      TwoFragments(log, pieces[0], Concat(pieces[1..]), reasoning);
    }
  }

  lemma {:induction false} StepsAppend(log: Log, a: seq<Event>, b: seq<Event>)
    ensures Steps(log, a + b) == Steps(Steps(log, a), b)
    decreases |a|
  {
    hide Step;
    if a == [] {
      assert a + b == b;
    } else {
      assert (a + b)[1..] == a[1..] + b;
      StepsAppend(Step(log, a[0]), a[1..], b);
    }
  }

  /** Cutting any one answer of a log differently changes nothing the model is sent. */
  lemma {:induction false} RecutLog(prompt: string, before: seq<Event>, pieces: seq<string>, pieces': seq<string>,
                                    reasoning: Option<string>, after: seq<Event>)
    requires pieces != [] && pieces' != [] && Concat(pieces) == Concat(pieces')
    ensures Rebuilt(prompt, before + Fragments(pieces, reasoning) + after)
            == Rebuilt(prompt, before + Fragments(pieces', reasoning) + after)
  {
    hide Step, Steps, CleanAll;
    var log := Steps(Opening(prompt), before);
    StepsAppend(Opening(prompt), before + Fragments(pieces, reasoning), after);
    StepsAppend(Opening(prompt), before, Fragments(pieces, reasoning));
    StepsAppend(Opening(prompt), before + Fragments(pieces', reasoning), after);
    StepsAppend(Opening(prompt), before, Fragments(pieces', reasoning));
    FragmentInvariance(log, pieces, reasoning);
    FragmentInvariance(log, pieces', reasoning);
  }

  /** A log that records reasoning as thinking and again on its frame reads like an old log
      that records it only as thinking. */
  lemma {:induction false} OldLogSameReasoning(log: Log, thought: string, text: Option<string>, calls: seq<ToolCall>)
    ensures Step(Step(log, Thinking(thought)), AssistantChunk(text, calls, Some(thought)))
            == Step(Step(log, Thinking(thought)), AssistantChunk(text, calls, None))
  {
    var pending := log.pending + thought;
    assert pending[|pending| - |thought|..] == thought;
  }

  // ---------- the shape of the result ----------

  predicate TextsMerged(ms: seq<Message>) {
    forall i :: 0 < i < |ms| ==> !(PlainText(ms[i - 1]) && PlainText(ms[i]))
  }

  lemma {:induction false} StepMerges(log: Log, event: Event)
    requires TextsMerged(log.messages)
    ensures TextsMerged(Step(log, event).messages)
    ensures log.messages != [] ==>
              && Step(log, event).messages != []
              && (log.messages[0].role == System ==> Step(log, event).messages[0] == log.messages[0])
  {
  }

  lemma {:induction false} StepsMerge(log: Log, events: seq<Event>)
    requires TextsMerged(log.messages)
    ensures TextsMerged(Steps(log, events).messages)
    ensures log.messages != [] && log.messages[0].role == System ==>
              Steps(log, events).messages != [] && Steps(log, events).messages[0] == log.messages[0]
    decreases |events|
  {
    if events != [] {
      StepMerges(log, events[0]);
      StepsMerge(Step(log, events[0]), events[1..]);
    }
  }

  /** Providers refuse two text answers in a row; a rebuilt log has none before it is repaired,
      starts with the system prompt, and shows no tool-call markup. */
  lemma {:induction false} RebuiltShape(prompt: string, events: seq<Event>)
    ensures TextsMerged(Rebuilt(prompt, events))
    ensures Rebuilt(prompt, events) != [] && Rebuilt(prompt, events)[0] == SystemNote(prompt)
    ensures forall m :: m in Rebuilt(prompt, events) && m.role == Assistant ==> Find(m.content, DsmlMarkers.OPEN) == -1
  {
    hide Dsml.Strip, Steps;
    StepsMerge(Opening(prompt), events);
  }
}
