/** The rebuilt messages, event by event. */
module RebuiltEvents {
  import opened Options
  import opened Text
  import opened Transcript
  import opened Stale
  import opened Rebuild
  import opened Budget
  import opened Pipeline

  // ---------- what an event shows ----------

  /** A frame that shows text or announces calls. */
  predicate VisibleFrame(e: Event) {
    e.AssistantChunk? && (TextOf(e.text) != "" || e.calls != [])
  }

  predicate TextFrame(e: Event) {
    VisibleFrame(e) && e.calls == []
  }

  /** What ends the gathering of reasoning: a visible frame, a turn start or a result. */
  predicate Visible(e: Event) {
    e.TurnStart? || e.ToolResult? || VisibleFrame(e)
  }

  /** The last visible event among the first `n` is a text frame. */
  function InText(events: seq<Event>, n: nat): bool
    requires n <= |events|
  {
    n > 0 && if Visible(events[n - 1]) then TextFrame(events[n - 1]) else InText(events, n - 1)
  }

  /** Every visible event starts a message but a text frame that goes on with a text. */
  predicate Starts(events: seq<Event>, i: nat)
    requires i < |events|
  {
    Visible(events[i]) && !(TextFrame(events[i]) && InText(events, i))
  }

  /** The reasoning gathered by the first `n` events since the last visible one. A frame that
      repeats the end of it adds nothing. */
  function Gathered(events: seq<Event>, n: nat): string
    requires n <= |events|
    decreases n, 0
  {
    if n == 0 || Visible(events[n - 1]) then ""
    else if events[n - 1].Thinking? then Gathered(events, n - 1) + events[n - 1].thought
    else if events[n - 1].AssistantChunk? then GatheredWith(events, n - 1)
    else Gathered(events, n - 1)
  }

  /** The same with the reasoning that frame `i` carries itself. */
  function GatheredWith(events: seq<Event>, i: nat): string
    requires i < |events| && events[i].AssistantChunk?
    decreases i, 1
  {
    match events[i].reasoning
    case Some(own) => if EndsWith(Gathered(events, i), own) then Gathered(events, i) else Gathered(events, i) + own
    case None => Gathered(events, i)
  }

  /** The text of the frames from `i` to `n`. */
  function FrameText(events: seq<Event>, i: nat, n: nat): string
    requires i <= n <= |events|
  {
    if i == n then ""
    else FrameText(events, i, n - 1) + if events[n - 1].AssistantChunk? then TextOf(events[n - 1].text) else ""
  }

  /** The reasoning of the visible frames from `i` to `n`. */
  function FrameReasoning(events: seq<Event>, i: nat, n: nat): string
    requires i <= n <= |events|
  {
    if i == n then ""
    else FrameReasoning(events, i, n - 1) + if VisibleFrame(events[n - 1]) then GatheredWith(events, n - 1) else ""
  }

  /** A result as it is sent: unchanged up to the limit. */
  function SentResult(content: string): (r: string)
    ensures |content| <= 16_000 ==> r == content
    ensures |content| > 16_000 ==> r == CompressToolContext(content)
  {
    CompressToolContext(content)
  }

  /** The message that starts at `i`, when the next one starts at `n`; `show` is what becomes of an
      answer's text. */
  function MessageOf(show: string -> string, events: seq<Event>, i: nat, n: nat): Message
    requires i < n <= |events| && Starts(events, i)
  {
    match events[i]
    case TurnStart(input) => Message(User, input, [], [], None, None)
    case ToolResult(callId, content) => Message(Tool, SentResult(content), [], [], None, Some(callId))
    case AssistantChunk(text, calls, _) =>
      if calls != [] then
        Message(Assistant, show(TextOf(text)), [], calls, NonEmpty(GatheredWith(events, i)), None)
      else
        Message(Assistant, show(FrameText(events, i, n)), [], [], NonEmpty(FrameReasoning(events, i, n)), None)
  }

  // ---------- all messages ----------

  /** The positions below `n` at which messages start, in order. */
  ghost predicate StartsBelow(events: seq<Event>, n: nat, at: seq<nat>)
    requires n <= |events|
  {
    && (forall k :: 0 <= k < |at| ==> at[k] < n && Starts(events, at[k]))
    && (forall k, l :: 0 <= k < l < |at| ==> at[k] < at[l])
    && (forall i: nat :: i < n && Starts(events, i) ==> i in at)
  }

  function NextStart(at: seq<nat>, n: nat, k: nat): nat
    requires k < |at|
  {
    if k + 1 < |at| then at[k + 1] else n
  }

  /** The messages of the first `n` events. */
  ghost predicate MessagesAre(show: string -> string, prompt: string, events: seq<Event>, n: nat, at: seq<nat>,
                              ms: seq<Message>)
    requires n <= |events| && StartsBelow(events, n, at)
  {
    && |ms| == 1 + |at| && ms[0] == SystemNote(prompt)
    && forall k :: 0 <= k < |at| ==> ms[1 + k] == MessageOf(show, events, at[k], NextStart(at, n, k))
  }

  function AsIs(): string -> string {
    (s: string) => s
  }

  function Stripped(): string -> string {
    (s: string) => Dsml.Strip(s)
  }

  /** The fold over the first `n` events, by position. */
  ghost predicate FoldIs(prompt: string, events: seq<Event>, n: nat, at: seq<nat>, log: Log)
    requires n <= |events|
  {
    && StartsBelow(events, n, at)
    && MessagesAre(AsIs(), prompt, events, n, at, log.messages)
    && log.pending == Gathered(events, n)
    && (InText(events, n) <==> at != [] && TextFrame(events[at[|at| - 1]]))
  }

  lemma {:induction false} MessagePasses(show: string -> string, events: seq<Event>, i: nat, n: nat)
    requires i < n < |events| && Starts(events, i) && !Visible(events[n])
    ensures MessageOf(show, events, i, n + 1) == MessageOf(show, events, i, n)
  {
    hide GatheredWith, InText, SentResult;
    assert FrameText(events, i, n) + "" == FrameText(events, i, n);
    assert FrameReasoning(events, i, n) + "" == FrameReasoning(events, i, n);
  }

  /** An event that shows nothing adds to the gathered reasoning at most. */
  lemma {:induction false} PassesOver(events: seq<Event>, n: nat, log: Log)
    requires n < |events| && !Visible(events[n]) && log.pending == Gathered(events, n)
    ensures Step(log, events[n]) == Log(log.messages, Gathered(events, n + 1))
    ensures InText(events, n + 1) == InText(events, n) && !Starts(events, n)
  {
    hide CompressToolContext, EndsWith, AddAssistant;
  }

  lemma {:induction false} FoldPasses(prompt: string, events: seq<Event>, n: nat, at: seq<nat>, log: Log, log': Log)
    requires n < |events| && FoldIs(prompt, events, n, at, log) && !Visible(events[n])
    requires log' == Step(log, events[n])
    ensures FoldIs(prompt, events, n + 1, at, log')
  {
    PassesOver(events, n, log);
    StartsOneMore(events, n, at);
    hide Step, MessageOf, Visible, InText, Gathered;
    forall k | 0 <= k < |at|
      ensures log'.messages[1 + k] == MessageOf(AsIs(), events, at[k], NextStart(at, n + 1, k))
    {
      if k == |at| - 1 {
        MessagePasses(AsIs(), events, at[k], n);
      }
      assert log.messages[1 + k] == MessageOf(AsIs(), events, at[k], NextStart(at, n, k));
    }
  }

  lemma {:induction false} StartsOneMore(events: seq<Event>, n: nat, at: seq<nat>)
    requires n < |events| && StartsBelow(events, n, at)
    ensures StartsBelow(events, n + 1, if Starts(events, n) then at + [n] else at)
  {
    hide Starts;
    var more := if Starts(events, n) then at + [n] else at;
    forall i: nat | i < n + 1 && Starts(events, i)
      ensures i in more
    {
      assert i < n ==> i in at;
    }
  }

  lemma {:induction false} FrameAlone(events: seq<Event>, n: nat)
    requires n < |events| && VisibleFrame(events[n])
    ensures FrameText(events, n, n + 1) == TextOf(events[n].text)
    ensures FrameReasoning(events, n, n + 1) == GatheredWith(events, n)
  {
    hide GatheredWith;
  }

  /** What an event that starts a message appends. */
  lemma {:induction false} StartAppends(events: seq<Event>, n: nat, log: Log)
    requires n < |events| && Starts(events, n) && log.pending == Gathered(events, n)
    requires log.messages != [] && (InText(events, n) <==> PlainText(log.messages[|log.messages| - 1]))
    ensures Step(log, events[n]) == Log(log.messages + [MessageOf(AsIs(), events, n, n + 1)], "")
  {
    hide CompressToolContext, EndsWith, Gathered, InText, FrameText, FrameReasoning;
    if events[n].AssistantChunk? {
      FrameAlone(events, n);
      assert Gather(log.pending, events[n].reasoning) == GatheredWith(events, n);
    }
  }

  lemma {:induction false} LastIsText(prompt: string, events: seq<Event>, n: nat, at: seq<nat>, log: Log)
    requires n <= |events| && FoldIs(prompt, events, n, at, log)
    ensures log.messages != [] && (InText(events, n) <==> PlainText(log.messages[|log.messages| - 1]))
  {
    hide CompressToolContext, Gathered, InText, FrameText, FrameReasoning, GatheredWith, SentResult;
    if at != [] {
      var k := |at| - 1;
      assert log.messages[1 + k] == MessageOf(AsIs(), events, at[k], NextStart(at, n, k));
    }
  }

  /** The fold by position, spelled out. */
  lemma {:induction false} FoldMeans(prompt: string, events: seq<Event>, n: nat, at: seq<nat>, log: Log)
    requires n <= |events|
    ensures FoldIs(prompt, events, n, at, log) <==>
              && StartsBelow(events, n, at)
              && MessagesAre(AsIs(), prompt, events, n, at, log.messages)
              && log.pending == Gathered(events, n)
              && (InText(events, n) <==> EndsInText(events, n, at))
    ensures FoldIs(prompt, events, n, at, log) ==> |log.messages| == 1 + |at|
  {
    hide StartsBelow, Gathered, InText;
  }

  predicate EndsInText(events: seq<Event>, n: nat, at: seq<nat>)
    requires n <= |events|
    requires forall k :: 0 <= k < |at| ==> at[k] < n
  {
    at != [] && TextFrame(events[at[|at| - 1]])
  }

  lemma {:induction false} MessageStarts(prompt: string, events: seq<Event>, n: nat, at: seq<nat>, ms: seq<Message>)
    requires n < |events| && StartsBelow(events, n, at) && Starts(events, n)
    requires MessagesAre(AsIs(), prompt, events, n, at, ms)
    ensures StartsBelow(events, n + 1, at + [n])
    ensures MessagesAre(AsIs(), prompt, events, n + 1, at + [n], ms + [MessageOf(AsIs(), events, n, n + 1)])
  {
    StartsOneMore(events, n, at);
    hide MessageOf, Starts;
    var more, ms' := at + [n], ms + [MessageOf(AsIs(), events, n, n + 1)];
    forall k | 0 <= k < |more|
      ensures ms'[1 + k] == MessageOf(AsIs(), events, more[k], NextStart(more, n + 1, k))
    {
      if k < |at| {
        assert more[k] == at[k] && NextStart(more, n + 1, k) == NextStart(at, n, k);
        assert ms'[1 + k] == ms[1 + k];
      }
    }
  }

  lemma {:induction false} StartMode(events: seq<Event>, n: nat, at: seq<nat>)
    requires n < |events| && Starts(events, n) && StartsBelow(events, n + 1, at + [n])
    ensures InText(events, n + 1) <==> EndsInText(events, n + 1, at + [n])
    ensures Gathered(events, n + 1) == ""
  {
  }

  lemma {:induction false} FoldStarts(prompt: string, events: seq<Event>, n: nat, at: seq<nat>, log: Log, log': Log)
    requires n < |events| && FoldIs(prompt, events, n, at, log) && Starts(events, n)
    requires log' == Step(log, events[n])
    ensures FoldIs(prompt, events, n + 1, at + [n], log')
  {
    hide *;
    FoldMeans(prompt, events, n, at, log);
    LastIsText(prompt, events, n, at, log);
    StartAppends(events, n, log);
    MessageStarts(prompt, events, n, at, log.messages);
    StartMode(events, n, at);
    FoldMeans(prompt, events, n + 1, at + [n], log');
  }

  lemma {:induction false} TextGrows(events: seq<Event>, i: nat, n: nat)
    requires i < n < |events| && Starts(events, i) && TextFrame(events[i]) && TextFrame(events[n])
    ensures Grown(MessageOf(AsIs(), events, i, n), TextOf(events[n].text), GatheredWith(events, n))
         == MessageOf(AsIs(), events, i, n + 1)
  {
    hide GatheredWith, InText, Gathered;
    var was, more := FrameReasoning(events, i, n), GatheredWith(events, n);
    assert was + "" == was && "" + more == more;
    assert FrameReasoning(events, i, n + 1) == was + more;
  }

  lemma {:induction false} MessageGrows(prompt: string, events: seq<Event>, n: nat, at: seq<nat>, ms: seq<Message>)
    requires n < |events| && StartsBelow(events, n, at) && at != [] && !Starts(events, n)
    requires MessagesAre(AsIs(), prompt, events, n, at, ms)
    ensures StartsBelow(events, n + 1, at)
    ensures MessagesAre(AsIs(), prompt, events, n + 1, at, ms[|at| := MessageOf(AsIs(), events, at[|at| - 1], n + 1)])
    ensures ms[|at|] == MessageOf(AsIs(), events, at[|at| - 1], n)
  {
    StartsOneMore(events, n, at);
    hide MessageOf, Starts;
    var ms' := ms[|at| := MessageOf(AsIs(), events, at[|at| - 1], n + 1)];
    assert ms[1 + (|at| - 1)] == MessageOf(AsIs(), events, at[|at| - 1], NextStart(at, n, |at| - 1));
    forall k | 0 <= k < |at|
      ensures ms'[1 + k] == MessageOf(AsIs(), events, at[k], NextStart(at, n + 1, k))
    {
      if k < |at| - 1 {
        assert NextStart(at, n + 1, k) == NextStart(at, n, k);
        assert ms'[1 + k] == ms[1 + k];
      }
    }
  }

  lemma {:induction false} TextStarts(events: seq<Event>, n: nat, at: seq<nat>)
    requires n < |events| && StartsBelow(events, n, at) && EndsInText(events, n, at)
    ensures at != [] && at[|at| - 1] < n && Starts(events, at[|at| - 1]) && TextFrame(events[at[|at| - 1]])
    ensures EndsInText(events, n + 1, at)
  {
    hide Starts, TextFrame;
  }

  lemma {:induction false} FoldContinues(prompt: string, events: seq<Event>, n: nat, at: seq<nat>, log: Log, log': Log)
    requires n < |events| && FoldIs(prompt, events, n, at, log) && Visible(events[n]) && !Starts(events, n)
    requires log' == Step(log, events[n])
    ensures FoldIs(prompt, events, n + 1, at, log')
  {
    hide *;
    FoldMeans(prompt, events, n, at, log);
    LastIsText(prompt, events, n, at, log);
    GoesOn(events, n, log);
    TextStarts(events, n, at);
    MessageGrows(prompt, events, n, at, log.messages);
    TextGrows(events, at[|at| - 1], n);
    FoldMeans(prompt, events, n + 1, at, log');
  }

  /** A text frame behind a text makes it grow. */
  lemma {:induction false} GoesOn(events: seq<Event>, n: nat, log: Log)
    requires n < |events| && Visible(events[n]) && !Starts(events, n) && log.pending == Gathered(events, n)
    requires log.messages != [] && (InText(events, n) <==> PlainText(log.messages[|log.messages| - 1]))
    ensures TextFrame(events[n]) && InText(events, n) && InText(events, n + 1) && Gathered(events, n + 1) == ""
    ensures var at := |log.messages| - 1;
            Step(log, events[n])
            == Log(log.messages[at := Grown(log.messages[at], TextOf(events[n].text), GatheredWith(events, n))], "")
  {
    hide CompressToolContext, EndsWith, Grown;
    assert Gather(log.pending, events[n].reasoning) == GatheredWith(events, n);
  }

  lemma {:induction false} StepsMore(prompt: string, events: seq<Event>, n: nat)
    requires 0 < n <= |events|
    ensures Steps(Opening(prompt), events[..n]) == Step(Steps(Opening(prompt), events[..n - 1]), events[n - 1])
  {
    hide Step;
    var last := [events[n - 1]];
    assert events[..n] == events[..n - 1] + last && last[1..] == [];
    StepsAppend(Opening(prompt), events[..n - 1], last);
    var log := Steps(Opening(prompt), events[..n - 1]);
    assert Steps(log, last) == Steps(Step(log, last[0]), last[1..]);
  }

  lemma {:induction false} FoldAll(prompt: string, events: seq<Event>, n: nat) returns (at: seq<nat>)
    requires n <= |events|
    ensures FoldIs(prompt, events, n, at, Steps(Opening(prompt), events[..n]))
  {
    if n == 0 {
      at := [];
    } else {
      hide FoldIs, Step, Starts, Visible;
      var before := FoldAll(prompt, events, n - 1);
      StepsMore(prompt, events, n);
      var log := Steps(Opening(prompt), events[..n - 1]);
      var log' := Step(log, events[n - 1]);
      if !Visible(events[n - 1]) {
        at := before;
        FoldPasses(prompt, events, n - 1, before, log, log');
      } else if Starts(events, n - 1) {
        at := before + [n - 1];
        FoldStarts(prompt, events, n - 1, before, log, log');
      } else {
        at := before;
        FoldContinues(prompt, events, n - 1, before, log, log');
      }
    }
  }

  /** The rebuilt list, by event: behind the system prompt one message for every turn start, result
      and frame with calls, and one for every run of text frames, in order and with their contents. */
  lemma {:induction false} RebuiltByEvent(prompt: string, events: seq<Event>) returns (at: seq<nat>)
    ensures StartsBelow(events, |events|, at)
    ensures MessagesAre(Stripped(), prompt, events, |events|, at, Rebuilt(prompt, events))
  {
    hide Dsml.Strip, CompressToolContext, Steps, FrameText, FrameReasoning, GatheredWith, InText;
    at := FoldAll(prompt, events, |events|);
    assert events[..|events|] == events;
    var ms, rebuilt := Steps(Opening(prompt), events).messages, Rebuilt(prompt, events);
    assert rebuilt == CleanAll(ms);
    forall k | 0 <= k < |at|
      ensures rebuilt[1 + k] == MessageOf(Stripped(), events, at[k], NextStart(at, |events|, k))
    {
      assert ms[1 + k] == MessageOf(AsIs(), events, at[k], NextStart(at, |events|, k));
    }
  }

  // ---------- results, inputs and announcements ----------

  datatype Kind = Results | Inputs | Announcements

  predicate Is(kind: Kind, m: Message) {
    match kind
    case Results => m.role == Tool
    case Inputs => m.role == User
    case Announcements => Calling(m)
  }

  function Kept(ms: seq<Message>, kind: Kind): seq<Message> {
    if ms == [] then [] else (if Is(kind, ms[0]) then [ms[0]] else []) + Kept(ms[1..], kind)
  }

  /** What event `i` contributes to the messages of one kind. */
  function Own(kind: Kind, show: string -> string, events: seq<Event>, i: nat): seq<Message>
    requires i < |events|
  {
    var e := events[i];
    match kind
    case Results => if e.ToolResult? then [Message(Tool, SentResult(e.content), [], [], None, Some(e.callId))] else []
    case Inputs => if e.TurnStart? then [Message(User, e.input, [], [], None, None)] else []
    case Announcements =>
      if e.AssistantChunk? && e.calls != [] then
        [Message(Assistant, show(TextOf(e.text)), [], e.calls, NonEmpty(GatheredWith(events, i)), None)]
      else []
  }

  /** The contributions of the first `n` events, in order. */
  function ByEvent(kind: Kind, show: string -> string, events: seq<Event>, n: nat): seq<Message>
    requires n <= |events|
  {
    if n == 0 then [] else ByEvent(kind, show, events, n - 1) + Own(kind, show, events, n - 1)
  }

  lemma {:induction false} KeptAppend(a: seq<Message>, b: seq<Message>, kind: Kind)
    ensures Kept(a + b, kind) == Kept(a, kind) + Kept(b, kind)
  {
    if a == [] {
      assert a + b == b;
    } else {
      hide Is;
      assert (a + b)[1..] == a[1..] + b && (a + b)[0] == a[0];
      KeptAppend(a[1..], b, kind);
      if Is(kind, a[0]) {
        assert [a[0]] + (Kept(a[1..], kind) + Kept(b, kind)) == [a[0]] + Kept(a[1..], kind) + Kept(b, kind);
      }
    }
  }

  lemma {:induction false} KeptOne(m: Message, kind: Kind)
    ensures Kept([m], kind) == if Is(kind, m) then [m] else []
  {
    assert [m][1..] == [] && Kept([], kind) == [];
  }

  lemma {:induction false} KeptSameEnd(front: seq<Message>, m: Message, m': Message, kind: Kind)
    requires !Is(kind, m) && !Is(kind, m')
    ensures Kept(front + [m'], kind) == Kept(front + [m], kind)
  {
    hide Is;
    KeptAppend(front, [m], kind);
    KeptAppend(front, [m'], kind);
    KeptOne(m, kind);
    KeptOne(m', kind);
  }

  lemma {:induction false} StepKept(kind: Kind, events: seq<Event>, n: nat, log: Log)
    requires n < |events| && log.pending == Gathered(events, n) && log.messages != []
    requires InText(events, n) <==> PlainText(log.messages[|log.messages| - 1])
    ensures Kept(Step(log, events[n]).messages, kind) == Kept(log.messages, kind) + Own(kind, AsIs(), events, n)
  {
    hide CompressToolContext, EndsWith, Gathered, InText, Kept, FrameText, FrameReasoning;
    var ms := log.messages;
    if !Visible(events[n]) {
      PassesOver(events, n, log);
      assert Kept(ms, kind) + [] == Kept(ms, kind);
    } else if Starts(events, n) {
      StartAppends(events, n, log);
      var m := MessageOf(AsIs(), events, n, n + 1);
      KeptAppend(ms, [m], kind);
      KeptOne(m, kind);
    } else {
      GoesOn(events, n, log);
      var at := |ms| - 1;
      var m := Grown(ms[at], TextOf(events[n].text), GatheredWith(events, n));
      assert ms == ms[..at] + [ms[at]] && ms[at := m] == ms[..at] + [m];
      KeptSameEnd(ms[..at], ms[at], m, kind);
      assert Kept(ms, kind) + [] == Kept(ms, kind);
    }
  }

  lemma {:induction false} FoldKept(kind: Kind, prompt: string, events: seq<Event>, n: nat)
    requires n <= |events|
    ensures Kept(Steps(Opening(prompt), events[..n]).messages, kind) == ByEvent(kind, AsIs(), events, n)
  {
    hide *;
    if n == 0 {
      NothingKept(kind, prompt, events);
    } else {
      FoldKept(kind, prompt, events, n - 1);
      var at := FoldAll(prompt, events, n - 1);
      var log := Steps(Opening(prompt), events[..n - 1]);
      LastIsText(prompt, events, n - 1, at, log);
      FoldPending(prompt, events, n - 1, at, log);
      StepKept(kind, events, n - 1, log);
      StepsMore(prompt, events, n);
      OneMoreEvent(kind, events, n);
    }
  }

  lemma {:induction false} NothingKept(kind: Kind, prompt: string, events: seq<Event>)
    ensures Kept(Steps(Opening(prompt), events[..0]).messages, kind) == ByEvent(kind, AsIs(), events, 0)
  {
    KeptOne(SystemNote(prompt), kind);
  }

  lemma {:induction false} OneMoreEvent(kind: Kind, events: seq<Event>, n: nat)
    requires 0 < n <= |events|
    ensures ByEvent(kind, AsIs(), events, n) == ByEvent(kind, AsIs(), events, n - 1) + Own(kind, AsIs(), events, n - 1)
  {
    hide Own;
  }

  lemma {:induction false} FoldPending(prompt: string, events: seq<Event>, n: nat, at: seq<nat>, log: Log)
    requires n <= |events| && FoldIs(prompt, events, n, at, log)
    ensures log.pending == Gathered(events, n)
  {
  }

  lemma {:induction false} CleanKept(ms: seq<Message>, kind: Kind)
    ensures Kept(CleanAll(ms), kind) == CleanAll(Kept(ms, kind))
  {
    hide Dsml.Strip;
    if ms != [] {
      CleanKept(ms[1..], kind);
      assert CleanAll(ms)[1..] == CleanAll(ms[1..]);
      assert Is(kind, Clean(ms[0])) <==> Is(kind, ms[0]);
      CleanAppend(if Is(kind, ms[0]) then [ms[0]] else [], Kept(ms[1..], kind));
    }
  }

  lemma {:induction false} CleanAppend(a: seq<Message>, b: seq<Message>)
    ensures CleanAll(a + b) == CleanAll(a) + CleanAll(b)
  {
    hide Clean;
  }

  lemma {:induction false} CleanOwn(kind: Kind, events: seq<Event>, i: nat)
    requires i < |events|
    ensures CleanAll(Own(kind, AsIs(), events, i)) == Own(kind, Stripped(), events, i)
  {
    hide Dsml.Strip, GatheredWith, SentResult;
    var own := Own(kind, AsIs(), events, i);
    if own != [] {
      assert CleanAll(own)[0] == Clean(own[0]) && |CleanAll(own)| == 1;
    }
  }

  lemma {:induction false} CleanByEvent(kind: Kind, events: seq<Event>, n: nat)
    requires n <= |events|
    ensures CleanAll(ByEvent(kind, AsIs(), events, n)) == ByEvent(kind, Stripped(), events, n)
  {
    hide Clean, Own;
    if n > 0 {
      CleanByEvent(kind, events, n - 1);
      CleanAppend(ByEvent(kind, AsIs(), events, n - 1), Own(kind, AsIs(), events, n - 1));
      CleanOwn(kind, events, n - 1);
    }
  }

  /** Of each kind, the rebuilt list holds what the events of that kind say, in order: every result
      under its call id and unchanged up to the limit, every input, and every frame with calls with
      its calls, its text and the reasoning gathered for it. */
  lemma {:induction false} KindsByEvent(kind: Kind, prompt: string, events: seq<Event>)
    ensures Kept(Rebuilt(prompt, events), kind) == ByEvent(kind, Stripped(), events, |events|)
  {
    hide Steps, Kept, ByEvent, CleanAll;
    assert events[..|events|] == events;
    FoldKept(kind, prompt, events, |events|);
    CleanKept(Steps(Opening(prompt), events).messages, kind);
    CleanByEvent(kind, events, |events|);
  }

  // ---------- the request ----------

  lemma {:induction false} UsersAreKept(ms: seq<Message>)
    ensures Users(ms) == Kept(ms, Inputs)
  {
    if ms != [] {
      UsersAreKept(ms[1..]);
    }
  }

  /** Of the inputs of the log at most the first ones are missing in a request, never the last. */
  lemma {:induction false} RequestKeepsInputs(prompt: string, events: seq<Event>, budget: nat, effort: Option<string>)
    requires budget >= SUMMARY_LIMIT
    ensures var sent, inputs := Users(Request(prompt, events, budget, effort)), ByEvent(Inputs, Stripped(), events, |events|);
            IsSuffix(sent, inputs) && (inputs != [] ==> sent != [])
  {
    hide *;
    EndToEnd(prompt, events, budget, effort);
    UsersAreKept(Rebuilt(prompt, events));
    KindsByEvent(Inputs, prompt, events);
  }
}
