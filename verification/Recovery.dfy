/** `recover_incomplete_thinking_history` of `harness-llm/src/deepseek.rs`: announcements
    that lost their reasoning become notes. */
module Recovery {
  import opened Options
  import opened Text
  import opened Lines
  import opened Transcript
  import opened Stale

  // ---------- when it applies ----------

  /** The efforts the gateway knows; everything else is left to the model. */
  function NormalizeEffort(value: string): Option<string> {
    var v := LowerAscii(Trim(value));
    if v == "off" || v == "none" then Some("none")
    else if v == "minimal" || v == "low" then Some("low")
    else if v == "medium" || v == "high" || v == "xhigh" then Some("high")
    else if v == "max" then Some("max")
    else None
  }

  /** The user has switched thinking off, in any case and with white space around. */
  predicate SwitchedOff(value: string) {
    LowerAscii(Trim(value)) in {"off", "none"}
  }

  lemma {:induction false} NoneIffSwitchedOff(value: string)
    ensures NormalizeEffort(value) == Some("none") <==> SwitchedOff(value)
  {
    hide LowerAscii, Trim;
  }

  /** Only an explicit "none" shows that the model does not think. */
  predicate ThinkingEnabled(effort: Option<string>) {
    effort != Some("none")
  }

  // ---------- one announcement ----------

  predicate Incomplete(m: Message) {
    Calling(m) && (m.reasoning == None || m.reasoning == Some(""))
  }

  predicate AnswersOne(m: Message, calls: seq<ToolCall>) {
    m.role == Tool && m.callId.Some? && exists c :: c in calls && c.id == m.callId.value
  }

  /** Number of messages directly in front that answer one of the calls. */
  function AnswerCount(calls: seq<ToolCall>, ms: seq<Message>): (n: nat)
    ensures n <= |ms|
  {
    if ms == [] || !AnswersOne(ms[0], calls) then 0 else 1 + AnswerCount(calls, ms[1..])
  }

  const NOTE_HEADER := "[历史工具回合摘要：原始 reasoning_content 未被旧版本保留；以下结果仍可作为证据使用]\n"
  const NOTE_CUT := "  [历史工具输出已节选]\n"
  const NOTE_EXCERPT := 2_000

  function CallLine(call: ToolCall): string {
    "- 工具 " + call.name + "\n"
  }

  function ResultLine(m: Message): string {
    var id := if m.callId.Some? then m.callId.value else "unknown";
    "  " + id + " 返回：" + Take(m.content, NOTE_EXCERPT) + "\n"
    + if |m.content| > NOTE_EXCERPT then NOTE_CUT else ""
  }

  function CallLines(calls: seq<ToolCall>): string {
    if calls == [] then "" else CallLine(calls[0]) + CallLines(calls[1..])
  }

  function ResultLines(run: seq<Message>): string {
    if run == [] then "" else ResultLine(run[0]) + ResultLines(run[1..])
  }

  function Note(m: Message, run: seq<Message>): Message {
    SystemNote(NOTE_HEADER + CallLines(m.calls) + ResultLines(run))
  }

  function Recover(ms: seq<Message>): seq<Message>
    decreases |ms|
  {
    if ms == [] then []
    else if !Incomplete(ms[0]) then [ms[0]] + Recover(ms[1..])
    else
      var n := AnswerCount(ms[0].calls, ms[1..]);
      [Note(ms[0], ms[1..n + 1])] + Recover(ms[n + 1..])
  }

  /** The history a request carries. */
  function Outbound(effort: Option<string>, ms: seq<Message>): seq<Message> {
    if ThinkingEnabled(effort) then Recover(ms) else ms
  }

  // ---------- the loop ----------

  lemma {:induction false} CallLinesStep(summary: string, calls: seq<ToolCall>)
    requires calls != []
    ensures summary + CallLines(calls) == (summary + CallLine(calls[0])) + CallLines(calls[1..])
  {
    Assoc(summary, CallLine(calls[0]), CallLines(calls[1..]));
  }

  method CallSummary(header: string, calls: seq<ToolCall>) returns (summary: string)
    ensures summary == header + CallLines(calls)
  {
    hide CallLine;
    summary := header;
    for i := 0 to |calls|
      invariant header + CallLines(calls) == summary + CallLines(calls[i..])
    {
      CallLinesStep(summary, calls[i..]);
      assert calls[i..][1..] == calls[i + 1..];
      summary := summary + CallLine(calls[i]);
    }
    assert summary + "" == summary;
  }

  /** Collects the results behind an announcement, from `from` on. */
  method ResultSummary(header: string, calls: seq<ToolCall>, ms: seq<Message>, from: nat)
    returns (summary: string, index: nat)
    requires from <= |ms|
    ensures index == from + AnswerCount(calls, ms[from..])
    ensures summary == header + ResultLines(ms[from..index])
  {
    hide ResultLine;
    summary, index := header, from;
    assert header + "" == header;
    while index < |ms| && AnswersOne(ms[index], calls)
      invariant from <= index <= |ms|
      invariant AnswerCount(calls, ms[from..]) == index - from + AnswerCount(calls, ms[index..])
      invariant summary == header + ResultLines(ms[from..index])
    {
      assert ms[index..][1..] == ms[index + 1..];
      ResultLinesAppend(ms[from..index], ms[index]);
      assert ms[from..index] + [ms[index]] == ms[from..index + 1];
      Assoc(header, ResultLines(ms[from..index]), ResultLine(ms[index]));
      summary := summary + ResultLine(ms[index]);
      index := index + 1;
    }
  }

  lemma {:induction false} ResultLinesAppend(run: seq<Message>, m: Message)
    ensures ResultLines(run + [m]) == ResultLines(run) + ResultLine(m)
  {
    hide ResultLine;
    if run == [] {
      assert [m][1..] == [];
      assert ResultLine(m) + "" == ResultLine(m);
    } else {
      assert (run + [m])[1..] == run[1..] + [m];
      ResultLinesAppend(run[1..], m);
      Assoc(ResultLine(run[0]), ResultLines(run[1..]), ResultLine(m));
    }
  }

  method RecoverIncompleteThinkingHistory(ms: seq<Message>) returns (recovered: seq<Message>)
    ensures recovered == Recover(ms)
  {
    hide Note, Incomplete, AnswerCount;
    recovered := [];
    var index := 0;
    while index < |ms|
      invariant 0 <= index <= |ms|
      invariant Recover(ms) == recovered + Recover(ms[index..])
    {
      var message := ms[index];
      RecoverStep(ms, index, recovered);
      if !Incomplete(message) {
        recovered, index := recovered + [message], index + 1;
      } else {
        var from := index + 1;
        var summary := CallSummary(NOTE_HEADER, message.calls);
        summary, index := ResultSummary(summary, message.calls, ms, from);
        NoteIs(message, ms[from..index], summary);
        recovered := recovered + [SystemNote(summary)];
      }
    }
    assert recovered + [] == recovered;
  }

  lemma {:induction false} NoteIs(m: Message, run: seq<Message>, summary: string)
    requires summary == NOTE_HEADER + CallLines(m.calls) + ResultLines(run)
    ensures Note(m, run) == SystemNote(summary)
  {
  }

  lemma {:induction false} RecoverStep(ms: seq<Message>, i: nat, done: seq<Message>)
    requires i < |ms|
    ensures !Incomplete(ms[i]) ==> done + Recover(ms[i..]) == (done + [ms[i]]) + Recover(ms[i + 1..])
    ensures var n := AnswerCount(ms[i].calls, ms[i + 1..]);
            Incomplete(ms[i]) ==>
              done + Recover(ms[i..])
              == (done + [Note(ms[i], ms[i + 1..i + 1 + n])]) + Recover(ms[i + 1 + n..])
  {
    hide Note, Incomplete, AnswerCount;
    var tail := ms[i..];
    assert tail[1..] == ms[i + 1..];
    if Incomplete(ms[i]) {
      var n := AnswerCount(ms[i].calls, ms[i + 1..]);
      assert tail[1..n + 1] == ms[i + 1..i + 1 + n] && tail[n + 1..] == ms[i + 1 + n..];
      Assoc(done, [Note(ms[i], ms[i + 1..i + 1 + n])], Recover(ms[i + 1 + n..]));
    } else {
      Assoc(done, [ms[i]], Recover(ms[i + 1..]));
    }
  }

  // ---------- what it guarantees ----------

  /** Thinking mode accepts an announcement only with its reasoning. */
  predicate Reasoned(ms: seq<Message>) {
    forall m :: m in ms && Calling(m) ==> m.reasoning.Some? && m.reasoning.value != ""
  }

  lemma {:induction false} RecoverIsReasoned(ms: seq<Message>)
    ensures Reasoned(Recover(ms))
    decreases |ms|
  {
    if ms != [] {
      if Incomplete(ms[0]) {
        RecoverIsReasoned(ms[AnswerCount(ms[0].calls, ms[1..]) + 1..]);
      } else {
        RecoverIsReasoned(ms[1..]);
      }
    }
  }

  /** Exactly the transcripts that carry all reasoning come back unchanged. */
  lemma {:induction false} RecoverFixesExactlyReasoned(ms: seq<Message>)
    ensures Recover(ms) == ms <==> Reasoned(ms)
    decreases |ms|
  {
    if ms == [] {
    } else if Incomplete(ms[0]) {
      assert ms[0] in ms && Recover(ms)[0].role == System;
    } else {
      RecoverFixesExactlyReasoned(ms[1..]);
      assert ms == [ms[0]] + ms[1..];
      assert Recover(ms)[1..] == Recover(ms[1..]);
      assert Reasoned(ms) <==> Reasoned(ms[1..]) by {
        assert ms[0] in ms;
        assert forall m :: m in ms <==> m == ms[0] || m in ms[1..];
      }
    }
  }

  /** In a valid turn the messages a note replaces are exactly the answers. */
  lemma {:induction false} AnswerCountIs(calls: seq<ToolCall>, ms: seq<Message>, n: nat)
    requires n <= |ms|
    requires forall j :: 0 <= j < n ==> AnswersOne(ms[j], calls)
    requires n < |ms| ==> ms[n].role != Tool
    ensures AnswerCount(calls, ms) == n
  {
    if n > 0 {
      forall j | 0 <= j < n - 1
        ensures AnswersOne(ms[1..][j], calls)
      {
        assert ms[1..][j] == ms[j + 1];
      }
      AnswerCountIs(calls, ms[1..], n - 1);
    }
  }

  lemma {:induction false} TurnAnswers(ms: seq<Message>)
    requires ms != [] && ValidTurns(ms) && Calling(ms[0])
    ensures |ms[0].calls| < |ms| && AnswerCount(ms[0].calls, ms[1..]) == |ms[0].calls|
    ensures AnswerRun(ms[0].calls, ms[1..|ms[0].calls| + 1]) && ValidTurns(ms[|ms[0].calls| + 1..])
  {
    var calls := ms[0].calls;
    var n := |calls|;
    forall j | 0 <= j < n
      ensures AnswersOne(ms[1..][j], calls)
    {
      assert ms[1..][j] == ms[1..n + 1][j];
      assert calls[j] in calls;
    }
    ValidIsTurns(ms[n + 1..]);
    HeadNotTool(ms[n + 1..]);
    AnswerCountIs(calls, ms[1..], n);
  }

  lemma {:induction false} RecoverKeepsValid(ms: seq<Message>)
    requires ValidTurns(ms)
    ensures ValidTurns(Recover(ms))
    decreases |ms|
  {
    hide Note, AnswerCount, AnswerRun;
    if ms == [] {
    } else if !Calling(ms[0]) {
      RecoverKeepsValid(ms[1..]);
      PlainInFront(ms[0], Recover(ms[1..]));
    } else {
      TurnAnswers(ms);
      var n := |ms[0].calls|;
      RecoverKeepsValid(ms[n + 1..]);
      if Incomplete(ms[0]) {
        NoteIsPlain(ms[0], ms[1..n + 1]);
        PlainInFront(Note(ms[0], ms[1..n + 1]), Recover(ms[n + 1..]));
      } else {
        assert TurnOk(ms);
        ToolsInTurn(ms);
        RecoverSkips(ms, n + 1);
        TurnInFront(ms[..n + 1], Recover(ms[n + 1..]));
      }
    }
  }

  lemma {:induction false} NoteIsPlain(m: Message, run: seq<Message>)
    ensures Note(m, run).role == System
  {
  }

  /** Messages that announce nothing incomplete stay in place. */
  lemma {:induction false} RecoverSkips(ms: seq<Message>, k: nat)
    requires k <= |ms| && forall j :: 0 <= j < k ==> !Incomplete(ms[j])
    ensures Recover(ms) == ms[..k] + Recover(ms[k..])
  {
    hide Incomplete, Note, AnswerCount;
    if k > 0 {
      forall j | 0 <= j < k - 1
        ensures !Incomplete(ms[1..][j])
      {
        assert ms[1..][j] == ms[j + 1];
      }
      RecoverSkips(ms[1..], k - 1);
      assert ms[..k] == [ms[0]] + ms[1..][..k - 1] && ms[1..][k - 1..] == ms[k..];
      Assoc([ms[0]], ms[1..][..k - 1], Recover(ms[k..]));
    }
  }

  // ---------- what a note keeps ----------

  lemma {:induction false} OccursBetween(a: string, p: string, b: string)
    ensures At(a + p + b, p, |a|)
  {
  }

  lemma {:induction false} OccursInside(a: string, s: string, b: string, p: string)
    requires Occurs(s, p)
    ensures Occurs(a + s + b, p)
  {
    var i :| At(s, p, i);
    AtLeft(s, b, p, i);
    AtRight(a, s + b, p, |a| + i);
    Assoc(a, s, b);
    assert At(a + s + b, p, |a| + i);
  }

  lemma {:induction false} CallLinesHave(calls: seq<ToolCall>, j: nat)
    requires j < |calls|
    ensures Occurs(CallLines(calls), CallLine(calls[j]))
  {
    hide CallLine;
    var line, rest := CallLine(calls[0]), CallLines(calls[1..]);
    if j == 0 {
      OccursBetween("", line, rest);
      assert "" + line + rest == line + rest;
    } else {
      CallLinesHave(calls[1..], j - 1);
      OccursInside(line, rest, "", CallLine(calls[j]));
      assert line + rest + "" == line + rest;
    }
  }

  lemma {:induction false} ResultLinesHave(run: seq<Message>, j: nat)
    requires j < |run|
    ensures Occurs(ResultLines(run), ResultLine(run[j]))
  {
    hide ResultLine;
    var line, rest := ResultLine(run[0]), ResultLines(run[1..]);
    if j == 0 {
      OccursBetween("", line, rest);
      assert "" + line + rest == line + rest;
    } else {
      ResultLinesHave(run[1..], j - 1);
      OccursInside(line, rest, "", ResultLine(run[j]));
      assert line + rest + "" == line + rest;
    }
  }

  /** A note names every tool of the turn and carries the head of every result. */
  lemma {:induction false} NoteKeepsEvidence(m: Message, run: seq<Message>, j: nat)
    ensures j < |m.calls| ==> Occurs(Note(m, run).content, "- 工具 " + m.calls[j].name + "\n")
    ensures j < |run| && run[j].callId.Some? ==>
              Occurs(Note(m, run).content,
                     "  " + run[j].callId.value + " 返回：" + Take(run[j].content, NOTE_EXCERPT) + "\n")
  {
    hide CallLines, ResultLines, ResultLine;
    var a, b := CallLines(m.calls), ResultLines(run);
    if j < |m.calls| {
      CallLinesHave(m.calls, j);
      OccursInside(NOTE_HEADER, a, b, CallLine(m.calls[j]));
    }
    if j < |run| && run[j].callId.Some? {
      ResultLinesHave(run, j);
      OccursInside(NOTE_HEADER + a, b, "", ResultLine(run[j]));
      assert NOTE_HEADER + a + b + "" == NOTE_HEADER + a + b;
      ResultLineStarts(run[j], Note(m, run).content);
    }
  }

  lemma {:induction false} ResultLineStarts(r: Message, s: string)
    requires r.callId.Some? && Occurs(s, ResultLine(r))
    ensures Occurs(s, "  " + r.callId.value + " 返回：" + Take(r.content, NOTE_EXCERPT) + "\n")
  {
    var i :| At(s, ResultLine(r), i);
    var head := "  " + r.callId.value + " 返回：" + Take(r.content, NOTE_EXCERPT) + "\n";
    assert head <= ResultLine(r);
    AtPrefixOf(s, ResultLine(r), head, i);
  }

  // ---------- what is not touched ----------

  /** Neither an incomplete announcement, nor a result, nor a note. */
  predicate Untouched(m: Message) {
    m.role != Tool && m.role != System && !Incomplete(m)
  }

  function UntouchedOf(ms: seq<Message>): seq<Message> {
    if ms == [] then [] else (if Untouched(ms[0]) then [ms[0]] else []) + UntouchedOf(ms[1..])
  }

  lemma {:induction false} UntouchedSkips(ms: seq<Message>, n: nat)
    requires n <= |ms| && forall i :: 0 <= i < n ==> !Untouched(ms[i])
    ensures UntouchedOf(ms) == UntouchedOf(ms[n..])
  {
    hide Untouched;
    if n == 0 {
      assert ms[0..] == ms;
    } else {
      assert forall i :: 0 <= i < n - 1 ==> ms[1..][i] == ms[i + 1];
      UntouchedSkips(ms[1..], n - 1);
      assert ms[1..][n - 1..] == ms[n..];
    }
  }

  lemma {:induction false} AnswersAreTools(calls: seq<ToolCall>, ms: seq<Message>)
    ensures forall i :: 0 <= i < AnswerCount(calls, ms) ==> ms[i].role == Tool
  {
    if ms != [] && AnswersOne(ms[0], calls) {
      AnswersAreTools(calls, ms[1..]);
    }
  }

  /** Inputs, text answers and announcements with reasoning all stay, in order. */
  lemma {:induction false} RecoverKeepsOthers(ms: seq<Message>)
    ensures UntouchedOf(Recover(ms)) == UntouchedOf(ms)
    decreases |ms|
  {
    hide Note, AnswerCount, UntouchedOf;
    if ms == [] {
    } else if Incomplete(ms[0]) {
      var n := AnswerCount(ms[0].calls, ms[1..]);
      AnswersAreTools(ms[0].calls, ms[1..]);
      forall i | 0 <= i < n + 1
        ensures !Untouched(ms[i])
      {
        assert i > 0 ==> ms[i] == ms[1..][i - 1];
      }
      UntouchedSkips(ms, n + 1);
      RecoverKeepsOthers(ms[n + 1..]);
      NoteIsPlain(ms[0], ms[1..n + 1]);
      UntouchedSkips(Recover(ms), 1);
    } else {
      RecoverKeepsOthers(ms[1..]);
      UntouchedFirst(ms);
      UntouchedFirst(Recover(ms));
    }
  }

  lemma {:induction false} UntouchedFirst(ms: seq<Message>)
    requires ms != []
    ensures UntouchedOf(ms) == (if Untouched(ms[0]) then [ms[0]] else []) + UntouchedOf(ms[1..])
  {
    hide Untouched;
  }
}
