/** Messages, and the adjacency contract every provider checks. */
module Transcript {
  import opened Options

  datatype Role = System | User | Assistant | Tool

  /** `args` is the JSON value in its printed form. */
  datatype ToolCall = ToolCall(id: string, name: string, args: string)

  datatype Message = Message(
    role: Role,
    content: string,
    images: seq<string>,
    calls: seq<ToolCall>,
    reasoning: Option<string>,
    callId: Option<string>)

  function SystemNote(text: string): Message {
    Message(System, text, [], [], None, None)
  }

  /** An assistant message that announces tool calls. */
  predicate Calling(m: Message) {
    m.role == Assistant && m.calls != []
  }

  predicate DistinctIds(calls: seq<ToolCall>) {
    forall j, k :: 0 <= j < k < |calls| ==> calls[j].id != calls[k].id
  }

  predicate Answers(m: Message, call: ToolCall) {
    m.role == Tool && m.callId == Some(call.id)
  }

  // ---------- the contract, position by position ----------

  /** The calls announced at `i` are answered at once, in order, and by nothing else. */
  predicate AnsweredAt(ms: seq<Message>, i: nat)
    requires i < |ms|
  {
    var calls := ms[i].calls;
    && DistinctIds(calls)
    && i + |calls| < |ms|
    && (forall j :: 0 <= j < |calls| ==> calls[j].id != "" && Answers(ms[i + 1 + j], calls[j]))
    && (i + 1 + |calls| < |ms| ==> ms[i + 1 + |calls|].role != Tool)
  }

  /** A tool message belongs to an announcement directly in front of its run. */
  ghost predicate OwnedAt(ms: seq<Message>, t: nat)
    requires t < |ms|
  {
    exists i :: 0 <= i < t && Calling(ms[i]) && t <= i + |ms[i].calls|
  }

  ghost predicate Valid(ms: seq<Message>) {
    && (forall i :: 0 <= i < |ms| && Calling(ms[i]) ==> AnsweredAt(ms, i))
    && (forall t :: 0 <= t < |ms| && ms[t].role == Tool ==> OwnedAt(ms, t))
  }

  // ---------- the contract, turn by turn ----------

  predicate AnswerRun(calls: seq<ToolCall>, run: seq<Message>) {
    && |run| == |calls|
    && DistinctIds(calls)
    && forall j :: 0 <= j < |calls| ==> calls[j].id != "" && Answers(run[j], calls[j])
  }

  predicate ValidTurns(ms: seq<Message>)
    decreases |ms|
  {
    if ms == [] then true
    else if ms[0].role == Tool then false
    else if !Calling(ms[0]) then ValidTurns(ms[1..])
    else
      var n := |ms[0].calls|;
      n < |ms| && AnswerRun(ms[0].calls, ms[1..n + 1]) && ValidTurns(ms[n + 1..])
  }

  function TurnLength(ms: seq<Message>): nat
    requires ms != []
  {
    if Calling(ms[0]) then 1 + |ms[0].calls| else 1
  }

  /** The first turn of a transcript, on its own. */
  predicate TurnOk(ms: seq<Message>)
    requires ms != []
  {
    && ms[0].role != Tool
    && TurnLength(ms) <= |ms|
    && (Calling(ms[0]) ==> AnswerRun(ms[0].calls, ms[1..TurnLength(ms)]))
  }

  /** The two forms of the contract agree. */
  lemma {:induction false} ValidIsTurns(ms: seq<Message>)
    ensures Valid(ms) <==> ValidTurns(ms)
    decreases |ms|
  {
    if ms != [] {
      var k := TurnLength(ms);
      if Valid(ms) {
        FirstTurnOk(ms);
        ValidDropTurn(ms);
        ValidIsTurns(ms[k..]);
      } else if ValidTurns(ms) {
        ValidIsTurns(ms[k..]);
        ValidPush(ms, k);
      }
    }
  }

  lemma {:induction false} FirstTurnOk(ms: seq<Message>)
    requires ms != [] && Valid(ms)
    ensures TurnOk(ms)
  {
    if Calling(ms[0]) {
      assert AnsweredAt(ms, 0);
      assert forall j :: 0 <= j < |ms[0].calls| ==> ms[1..TurnLength(ms)][j] == ms[0 + 1 + j];
    }
  }

  lemma {:induction false} ValidDropTurn(ms: seq<Message>)
    requires ms != [] && Valid(ms) && TurnOk(ms)
    ensures Valid(ms[TurnLength(ms)..])
  {
    var k := TurnLength(ms);
    ToolsInTurn(ms);
    forall t | k <= t < |ms| && ms[t].role == Tool
      ensures OwnedFrom(ms, k, t)
    {
      var i :| 0 <= i < t && Calling(ms[i]) && t <= i + |ms[i].calls|;
    }
    ValidDrop(ms, k);
  }

  lemma {:induction false} ToolsInTurn(ms: seq<Message>)
    requires ms != [] && TurnOk(ms)
    ensures forall i :: 0 < i < TurnLength(ms) ==> ms[i].role == Tool
  {
    forall i | 0 < i < TurnLength(ms)
      ensures ms[i].role == Tool
    {
      assert Answers(ms[1..TurnLength(ms)][i - 1], ms[0].calls[i - 1]);
    }
  }

  ghost predicate OwnedFrom(ms: seq<Message>, k: nat, t: nat)
    requires t < |ms|
  {
    exists i :: k <= i < t && Calling(ms[i]) && t <= i + |ms[i].calls|
  }

  /** Cutting where no tool message loses its announcement. */
  lemma {:induction false} ValidDrop(ms: seq<Message>, k: nat)
    requires Valid(ms) && k <= |ms|
    requires forall t :: k <= t < |ms| && ms[t].role == Tool ==> OwnedFrom(ms, k, t)
    ensures Valid(ms[k..])
  {
    var rest := ms[k..];
    forall i | 0 <= i < |rest| && Calling(rest[i])
      ensures AnsweredAt(rest, i)
    {
      assert AnsweredAt(ms, k + i);
      forall j | 0 <= j < |rest[i].calls|
        ensures Answers(rest[i + 1 + j], rest[i].calls[j])
      {
        assert ms[k + i + 1 + j] == rest[i + 1 + j];
      }
    }
    forall t | 0 <= t < |rest| && rest[t].role == Tool
      ensures OwnedAt(rest, t)
    {
      assert OwnedFrom(ms, k, k + t);
      var i :| k <= i < k + t && Calling(ms[i]) && k + t <= i + |ms[i].calls|;
      assert rest[i - k] == ms[i];
    }
  }

  lemma {:induction false} HeadNotTool(ms: seq<Message>)
    requires Valid(ms)
    ensures ms != [] ==> ms[0].role != Tool
  {
    assert ms != [] ==> !OwnedAt(ms, 0);
  }

  lemma {:induction false} AnsweredPush(ms: seq<Message>, k: nat, i: nat)
    requires k <= |ms| && k <= i < |ms| && AnsweredAt(ms[k..], i - k)
    ensures AnsweredAt(ms, i)
  {
    var rest := ms[k..];
    assert rest[i - k] == ms[i];
    forall j | 0 <= j < |ms[i].calls|
      ensures Answers(ms[i + 1 + j], ms[i].calls[j])
    {
      assert rest[i - k + 1 + j] == ms[i + 1 + j];
    }
  }

  lemma {:induction false} AnsweredFirst(ms: seq<Message>)
    requires ms != [] && TurnOk(ms) && Calling(ms[0])
    requires TurnLength(ms) < |ms| ==> ms[TurnLength(ms)].role != Tool
    ensures AnsweredAt(ms, 0)
  {
    var k := TurnLength(ms);
    assert forall j :: 0 <= j < k - 1 ==> ms[1..k][j] == ms[1 + j];
  }

  lemma {:induction false} ValidPush(ms: seq<Message>, k: nat)
    requires ms != [] && TurnOk(ms) && k == TurnLength(ms) && Valid(ms[k..])
    ensures Valid(ms)
  {
    hide AnsweredAt;
    var rest := ms[k..];
    ToolsInTurn(ms);
    HeadNotTool(rest);
    assert k < |ms| ==> rest[0] == ms[k];
    forall i | 0 <= i < |ms| && Calling(ms[i])
      ensures AnsweredAt(ms, i)
    {
      if i == 0 {
        AnsweredFirst(ms);
      } else {
        assert i >= k;
        assert rest[i - k] == ms[i];
        AnsweredPush(ms, k, i);
      }
    }
    forall t | 0 <= t < |ms| && ms[t].role == Tool
      ensures OwnedAt(ms, t)
    {
      if t < k {
        TurnOwns(ms, t);
      } else {
        assert rest[t - k] == ms[t] && OwnedAt(rest, t - k);
        var i :| 0 <= i < t - k && Calling(rest[i]) && t - k <= i + |rest[i].calls|;
        assert ms[k + i] == rest[i];
      }
    }
  }

  lemma {:induction false} TurnOwns(ms: seq<Message>, t: nat)
    requires ms != [] && TurnOk(ms) && t < TurnLength(ms) && ms[t].role == Tool
    ensures OwnedAt(ms, t)
  {
    assert Calling(ms[0]) && t <= 0 + |ms[0].calls|;
  }
}
