/** `enforce_tool_call_protocol`: any message list becomes one that obeys the contract. */
module Protocol {
  import opened Options
  import opened Text
  import opened Lines
  import opened Transcript

  // ---------- what the repair does ----------

  /** Number of tool messages directly in front. */
  function RunLength(ms: seq<Message>): (n: nat)
    ensures n <= |ms|
  {
    if ms == [] || ms[0].role != Tool then 0 else 1 + RunLength(ms[1..])
  }

  lemma {:induction false} RunLengthTools(ms: seq<Message>)
    ensures forall j :: 0 <= j < RunLength(ms) ==> ms[j].role == Tool
    ensures RunLength(ms) < |ms| ==> ms[RunLength(ms)].role != Tool
  {
    if ms != [] && ms[0].role == Tool {
      RunLengthTools(ms[1..]);
    }
  }

  /** The first message of a run that answers `id`. */
  function FirstAnswer(run: seq<Message>, id: string): (m: Option<Message>)
    ensures m.Some? ==> m.value in run && m.value.callId == Some(id)
    ensures m.None? ==> forall j :: 0 <= j < |run| ==> run[j].callId != Some(id)
  {
    if run == [] then None
    else if run[0].callId == Some(id) then Some(run[0])
    else FirstAnswer(run[1..], id)
  }

  /** Declarations: the first call under each nonempty id. */
  function Declared(calls: seq<ToolCall>, seen: set<string>): seq<ToolCall> {
    if calls == [] then []
    else
      (if calls[0].id != "" && calls[0].id !in seen then [calls[0]] else [])
      + Declared(calls[1..], seen + {calls[0].id})
  }

  function CallIfAnswered(call: ToolCall, run: seq<Message>): seq<ToolCall> {
    if FirstAnswer(run, call.id).Some? then [call] else []
  }

  function AnswerOf(call: ToolCall, run: seq<Message>): seq<Message> {
    match FirstAnswer(run, call.id)
    case Some(m) => [m]
    case None => []
  }

  function AnsweredCalls(calls: seq<ToolCall>, run: seq<Message>): seq<ToolCall> {
    if calls == [] then [] else CallIfAnswered(calls[0], run) + AnsweredCalls(calls[1..], run)
  }

  function AnswersTo(calls: seq<ToolCall>, run: seq<Message>): seq<Message> {
    if calls == [] then [] else AnswerOf(calls[0], run) + AnswersTo(calls[1..], run)
  }

  /** What is left of an announcement and the run of tool messages behind it. */
  function Repaired(m: Message, run: seq<Message>): seq<Message> {
    var declared := Declared(m.calls, {});
    var kept := AnsweredCalls(declared, run);
    if kept != [] then [m.(calls := kept)] + AnswersTo(declared, run)
    else if Trim(m.content) != "" then [m.(calls := [])]
    else []
  }

  function Enforce(ms: seq<Message>): seq<Message>
    decreases |ms|
  {
    if ms == [] then []
    else if ms[0].role == Tool then Enforce(ms[1..])
    else if !Calling(ms[0]) then [ms[0]] + Enforce(ms[1..])
    else
      var n := RunLength(ms[1..]);
      Repaired(ms[0], ms[1..n + 1]) + Enforce(ms[n + 1..])
  }

  // ---------- the loops ----------

  method Declare(calls: seq<ToolCall>) returns (declared: seq<ToolCall>)
    ensures declared == Declared(calls, {})
  {
    declared := [];
    var seen: set<string> := {};
    for i := 0 to |calls|
      invariant Declared(calls, {}) == declared + Declared(calls[i..], seen)
    {
      var call := calls[i];
      assert calls[i..][1..] == calls[i + 1..];
      if call.id != "" && call.id !in seen {
        declared := declared + [call];
      }
      seen := seen + {call.id};
    }
  }

  /** The answers in a run by id: the first one under each declared id. */
  method CollectAnswers(run: seq<Message>, declared: set<string>) returns (answers: map<string, Message>)
    ensures forall id :: id in answers <==> id in declared && FirstAnswer(run, id).Some?
    ensures forall id :: id in answers ==> FirstAnswer(run, id) == Some(answers[id])
  {
    answers := map[];
    for i := 0 to |run|
      invariant forall id :: id in answers ==> id in declared && FirstAnswer(run, id) == Some(answers[id])
      invariant forall id :: id in declared && id !in answers ==> FirstAnswer(run, id) == FirstAnswer(run[i..], id)
    {
      assert run[i..][1..] == run[i + 1..];
      match run[i].callId
      case None =>
      case Some(id) =>
        if id in declared && id !in answers {
          answers := answers[id := run[i]];
        }
    }
  }

  /** Pairs the declared calls with their answers, in declaration order. */
  method Pair(declared: seq<ToolCall>, run: seq<Message>) returns (kept: seq<ToolCall>, results: seq<Message>)
    ensures kept == AnsweredCalls(declared, run) && results == AnswersTo(declared, run)
  {
    var answers := CollectAnswers(run, set c | c in declared :: c.id);
    kept, results := [], [];
    for i := 0 to |declared|
      invariant AnsweredCalls(declared, run) == kept + AnsweredCalls(declared[i..], run)
      invariant AnswersTo(declared, run) == results + AnswersTo(declared[i..], run)
    {
      var call := declared[i];
      assert declared[i..][1..] == declared[i + 1..];
      Assoc(kept, CallIfAnswered(call, run), AnsweredCalls(declared[i + 1..], run));
      Assoc(results, AnswerOf(call, run), AnswersTo(declared[i + 1..], run));
      assert kept + CallIfAnswered(call, run) == if call.id in answers then kept + [call] else kept;
      assert results + AnswerOf(call, run) == if call.id in answers then results + [answers[call.id]] else results;
      if call.id in answers {
        kept, results := kept + [call], results + [answers[call.id]];
      }
    }
    assert kept + [] == kept && results + [] == results;
  }

  /** The repaired announcement in front of `messages[i..]`, as the loop builds it. */
  method Repair(m: Message, run: seq<Message>) returns (block: seq<Message>)
    ensures block == Repaired(m, run)
  {
    hide Declared, AnsweredCalls, AnswersTo, Trim;
    var declared := Declare(m.calls);
    var kept, results := Pair(declared, run);
    if kept != [] {
      block := [m.(calls := kept)] + results;
    } else if Trim(m.content) != "" {
      block := [m.(calls := [])];
    } else {
      block := [];
    }
  }

  method EnforceProtocol(messages: seq<Message>) returns (guarded: seq<Message>)
    ensures guarded == Enforce(messages)
  {
    hide Repaired, Enforce;
    guarded := [];
    var i := 0;
    while i < |messages|
      invariant i <= |messages|
      invariant Enforce(messages) == guarded + Enforce(messages[i..])
    {
      var m := messages[i];
      EnforceTurn(messages, i, guarded);
      if m.role == Tool {
        i := i + 1;
      } else if !Calling(m) {
        guarded, i := guarded + [m], i + 1;
      } else {
        var from := i + 1;
        i := from;
        while i < |messages| && messages[i].role == Tool
          invariant from <= i <= |messages|
          invariant RunLength(messages[from..]) == i - from + RunLength(messages[i..])
        {
          assert messages[i..][1..] == messages[i + 1..];
          i := i + 1;
        }
        var block := Repair(m, messages[from..i]);
        guarded := guarded + block;
      }
    }
    EnforceNothing(messages[i..]);
    assert guarded + [] == guarded;
  }

  lemma {:induction false} EnforceNothing(ms: seq<Message>)
    ensures ms == [] ==> Enforce(ms) == []
  {
  }

  lemma {:induction false} EnforceTurn(messages: seq<Message>, i: nat, guarded: seq<Message>)
    requires i < |messages|
    ensures var m, rest := messages[i], messages[i + 1..];
            var n := RunLength(rest);
            && (m.role == Tool ==> Enforce(messages[i..]) == Enforce(rest))
            && (m.role != Tool && !Calling(m) ==> guarded + Enforce(messages[i..]) == (guarded + [m]) + Enforce(rest))
            && (Calling(m) ==>
                  guarded + Enforce(messages[i..])
                  == (guarded + Repaired(m, messages[i + 1..i + 1 + n])) + Enforce(messages[i + 1 + n..]))
  {
    hide Repaired, RunLength;
    var m, tail := messages[i], messages[i..];
    var rest := messages[i + 1..];
    assert tail[0] == m && tail[1..] == rest;
    var n := RunLength(rest);
    assert tail[1..n + 1] == messages[i + 1..i + 1 + n] && tail[n + 1..] == messages[i + 1 + n..];
    if m.role != Tool && !Calling(m) {
      Assoc(guarded, [m], Enforce(rest));
    } else if Calling(m) {
      Assoc(guarded, Repaired(m, messages[i + 1..i + 1 + n]), Enforce(messages[i + 1 + n..]));
    }
  }
}
