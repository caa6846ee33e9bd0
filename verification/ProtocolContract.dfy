/** The repaired transcript obeys the contract, loses nothing it need not lose, and a
    transcript is left alone exactly when it obeys the contract already. */
module ProtocolContract {
  import opened Options
  import opened Lines
  import opened Transcript
  import opened Protocol

  predicate AllTools(run: seq<Message>) {
    forall j :: 0 <= j < |run| ==> run[j].role == Tool
  }

  predicate GoodIds(calls: seq<ToolCall>, seen: set<string>) {
    DistinctIds(calls) && forall j :: 0 <= j < |calls| ==> calls[j].id != "" && calls[j].id !in seen
  }

  lemma {:induction false} DeclaredIsGood(calls: seq<ToolCall>, seen: set<string>)
    ensures GoodIds(Declared(calls, seen), seen)
    decreases |calls|
  {
    if calls != [] {
      DeclaredIsGood(calls[1..], seen + {calls[0].id});
    }
  }

  /** Kept calls and their answers line up. */
  lemma {:induction false} KeptAreAnswered(calls: seq<ToolCall>, run: seq<Message>)
    requires GoodIds(calls, {}) && AllTools(run)
    ensures AnswerRun(AnsweredCalls(calls, run), AnswersTo(calls, run))
    ensures forall c :: c in AnsweredCalls(calls, run) ==> c in calls
    decreases |calls|
  {
    if calls != [] {
      KeptAreAnswered(calls[1..], run);
      var kept, rest := AnsweredCalls(calls, run), AnsweredCalls(calls[1..], run);
      assert forall k :: 0 <= k < |rest| ==> rest[k] in calls[1..];
      assert forall k :: 0 <= k < |rest| ==> rest[k].id != calls[0].id;
    }
  }

  /** A repaired block in front of a valid transcript is valid. */
  lemma {:induction false} RepairedIsTurn(m: Message, run: seq<Message>, rest: seq<Message>)
    requires Calling(m) && AllTools(run) && ValidTurns(rest)
    ensures ValidTurns(Repaired(m, run) + rest)
  {
    var declared := Declared(m.calls, {});
    DeclaredIsGood(m.calls, {});
    KeptAreAnswered(declared, run);
    var kept, results := AnsweredCalls(declared, run), AnswersTo(declared, run);
    hide Declared, AnsweredCalls, AnswersTo, Trim;
    var all := Repaired(m, run) + rest;
    if kept != [] {
      assert all == [m.(calls := kept)] + results + rest;
      assert all[1..|kept| + 1] == results && all[|kept| + 1..] == rest;
    } else if Trim(m.content) != "" {
      assert all[1..] == rest;
    } else {
      assert all == rest;
    }
  }

  /** Whatever the log contained, the result obeys the contract. */
  lemma {:induction false} EnforceIsValid(ms: seq<Message>)
    ensures ValidTurns(Enforce(ms))
    decreases |ms|
  {
    if ms != [] {
      if ms[0].role == Tool || !Calling(ms[0]) {
        EnforceIsValid(ms[1..]);
        assert ([ms[0]] + Enforce(ms[1..]))[1..] == Enforce(ms[1..]);
      } else {
        var n := RunLength(ms[1..]);
        RunLengthTools(ms[1..]);
        EnforceIsValid(ms[n + 1..]);
        RepairedIsTurn(ms[0], ms[1..n + 1], Enforce(ms[n + 1..]));
      }
    }
  }

  // ---------- valid transcripts come back unchanged ----------

  lemma {:induction false} DeclaredIsAll(calls: seq<ToolCall>, seen: set<string>)
    requires GoodIds(calls, seen)
    ensures Declared(calls, seen) == calls
    decreases |calls|
  {
    if calls != [] {
      forall j | 0 <= j < |calls[1..]|
        ensures calls[1..][j].id != calls[0].id
      {
        assert calls[0].id != calls[j + 1].id;
      }
      DeclaredIsAll(calls[1..], seen + {calls[0].id});
    }
  }

  lemma {:induction false} AnswerRunTail(calls: seq<ToolCall>, run: seq<Message>)
    requires AnswerRun(calls, run) && calls != []
    ensures AnswerRun(calls[1..], run[1..])
  {
    forall k | 0 <= k < |calls[1..]|
      ensures Answers(run[1..][k], calls[1..][k]) && calls[1..][k].id != ""
    {
      assert Answers(run[k + 1], calls[k + 1]);
    }
  }

  /** In an answer run the first answer to a call is the one at its own position. */
  lemma {:induction false} AnswerAtPosition(calls: seq<ToolCall>, run: seq<Message>, j: nat)
    requires AnswerRun(calls, run) && j < |calls|
    ensures FirstAnswer(run, calls[j].id) == Some(run[j])
    decreases j
  {
    assert Answers(run[j], calls[j]);
    if j > 0 {
      assert Answers(run[0], calls[0]) && calls[0].id != calls[j].id;
      AnswerRunTail(calls, run);
      AnswerAtPosition(calls[1..], run[1..], j - 1);
    }
  }

  lemma {:induction false} AnsweredCons(call: ToolCall, rest: seq<ToolCall>, run: seq<Message>)
    ensures AnsweredCalls([call] + rest, run) == CallIfAnswered(call, run) + AnsweredCalls(rest, run)
    ensures AnswersTo([call] + rest, run) == AnswerOf(call, run) + AnswersTo(rest, run)
    ensures FirstAnswer(run, call.id).None? ==>
              AnsweredCalls([call] + rest, run) == AnsweredCalls(rest, run) && AnswersTo([call] + rest, run) == AnswersTo(rest, run)
  {
    assert ([call] + rest)[1..] == rest;
  }

  /** If every call has its answer, all calls and answers are kept. */
  lemma {:induction false} AllAnswered(calls: seq<ToolCall>, results: seq<Message>, run: seq<Message>)
    requires |calls| == |results|
    requires forall k :: 0 <= k < |calls| ==> FirstAnswer(run, calls[k].id) == Some(results[k])
    ensures AnsweredCalls(calls, run) == calls && AnswersTo(calls, run) == results
    decreases |calls|
  {
    hide FirstAnswer;
    if calls != [] {
      AllAnswered(calls[1..], results[1..], run);
    }
  }

  lemma {:induction false} AnswersAreRun(calls: seq<ToolCall>, run: seq<Message>)
    requires AnswerRun(calls, run)
    ensures AnsweredCalls(calls, run) == calls && AnswersTo(calls, run) == run
  {
    forall k | 0 <= k < |calls|
      ensures FirstAnswer(run, calls[k].id) == Some(run[k])
    {
      AnswerAtPosition(calls, run, k);
    }
    AllAnswered(calls, run, run);
  }

  lemma {:induction false} RunLengthIs(ms: seq<Message>, n: nat)
    requires n <= |ms| && AllTools(ms[..n]) && (n < |ms| ==> ms[n].role != Tool)
    ensures RunLength(ms) == n
    decreases n
  {
    if n > 0 {
      assert ms[..n][0] == ms[0];
      assert ms[1..][..n - 1] == ms[..n][1..];
      RunLengthIs(ms[1..], n - 1);
    }
  }

  lemma {:induction false} FirstIsNotTool(ms: seq<Message>)
    requires ValidTurns(ms)
    ensures ms != [] ==> ms[0].role != Tool
  {
  }

  lemma {:induction false} RepairKeepsTurn(m: Message, run: seq<Message>)
    requires Calling(m) && AnswerRun(m.calls, run)
    ensures Repaired(m, run) == [m] + run && AllTools(run)
  {
    DeclaredIsAll(m.calls, {});
    AnswersAreRun(m.calls, run);
    forall j | 0 <= j < |run|
      ensures run[j].role == Tool
    {
      assert Answers(run[j], m.calls[j]);
    }
  }

  lemma {:induction false} EnforceKeepsValid(ms: seq<Message>)
    requires ValidTurns(ms)
    ensures Enforce(ms) == ms
    decreases |ms|
  {
    if ms == [] {
    } else if !Calling(ms[0]) {
      PlainTurn(ms);
      hide *;
      EnforceKeepsValid(ms[1..]);
    } else {
      hide *;
      var j := KeptTurn(ms);
      EnforceKeepsValid(ms[j..]);
    }
  }

  /** A whole turn of a valid transcript is kept. */
  lemma {:induction false} KeptTurn(ms: seq<Message>) returns (j: nat)
    requires ms != [] && ValidTurns(ms) && Calling(ms[0])
    ensures 0 < j <= |ms| && ValidTurns(ms[j..])
    ensures Enforce(ms) == ms[..j] + Enforce(ms[j..]) && ms == ms[..j] + ms[j..]
  {
    CallingTurn(ms);
    hide *;
    var n := |ms[0].calls|;
    j := n + 1;
    RepairKeepsTurn(ms[0], ms[1..j]);
    RunLengthIs(ms[1..], n);
    WholeTurn(ms, n);
    EnforceFirst(ms, ms[1..j], ms[j..]);
  }

  lemma {:induction false} EnforceFirst(ms: seq<Message>, run: seq<Message>, rest: seq<Message>)
    requires ms != [] && Calling(ms[0])
    requires var n := RunLength(ms[1..]);
             n < |ms| && run == ms[1..n + 1] && rest == ms[n + 1..]
    ensures Enforce(ms) == Repaired(ms[0], run) + Enforce(rest)
  {
    hide Repaired, RunLength;
  }

  lemma {:induction false} PlainTurn(ms: seq<Message>)
    requires ms != [] && ValidTurns(ms) && !Calling(ms[0])
    ensures ValidTurns(ms[1..]) && Enforce(ms) == [ms[0]] + Enforce(ms[1..]) && ms == [ms[0]] + ms[1..]
  {
  }

  lemma {:induction false} CallingTurn(ms: seq<Message>)
    requires ms != [] && ValidTurns(ms) && Calling(ms[0])
    ensures var n := |ms[0].calls|;
            && n < |ms| && AnswerRun(ms[0].calls, ms[1..n + 1]) && ValidTurns(ms[n + 1..])
            && ms[1..][..n] == ms[1..n + 1] && AllTools(ms[1..][..n])
            && (n < |ms[1..]| ==> ms[1..][n].role != Tool)
  {
    var n := |ms[0].calls|;
    RepairKeepsTurn(ms[0], ms[1..n + 1]);
    assert ms[1..][..n] == ms[1..n + 1];
    assert n < |ms[1..]| ==> ms[1..][n] == ms[n + 1..][0];
    FirstIsNotTool(ms[n + 1..]);
  }

  lemma {:induction false} WholeTurn(ms: seq<Message>, n: nat)
    requires n < |ms|
    ensures [ms[0]] + ms[1..n + 1] == ms[..n + 1] && ms == ms[..n + 1] + ms[n + 1..]
  {
  }

  /** The repair leaves a transcript alone exactly when it obeys the contract; in
      particular a second repair never changes anything. */
  lemma {:induction false} EnforceFixesExactlyValid(ms: seq<Message>)
    ensures Valid(Enforce(ms))
    ensures Enforce(ms) == ms <==> Valid(ms)
    ensures Enforce(Enforce(ms)) == Enforce(ms)
  {
    EnforceIsValid(ms);
    ValidIsTurns(Enforce(ms));
    ValidIsTurns(ms);
    EnforceKeepsValid(Enforce(ms));
    if ValidTurns(ms) {
      EnforceKeepsValid(ms);
    }
  }

  // ---------- exactly what survives ----------

  /** A tool message at `t` answers `id` in the run directly behind `i`. */
  ghost predicate AnswerAt(ms: seq<Message>, i: nat, id: string, t: int) {
    i < t < |ms| && ms[t].callId == Some(id) && forall u :: i < u <= t ==> ms[u].role == Tool
  }

  ghost predicate HasAnswer(ms: seq<Message>, i: nat, id: string) {
    exists t :: AnswerAt(ms, i, id, t)
  }

  ghost predicate FirstUse(calls: seq<ToolCall>, k: nat)
    requires k < |calls|
  {
    calls[k].id != "" && forall j :: 0 <= j < k ==> calls[j].id != calls[k].id
  }

  /** The calls from the `k`-th on whose id is nonempty, declared here first, and answered. */
  ghost function Survivors(ms: seq<Message>, i: nat, k: nat): seq<ToolCall>
    requires i < |ms| && k <= |ms[i].calls|
    decreases |ms[i].calls| - k
  {
    var calls := ms[i].calls;
    if k == |calls| then []
    else
      (if Survives(ms, i, k) then [calls[k]] else []) + Survivors(ms, i, k + 1)
  }

  /** The earliest answer to `id` behind `i`. */
  ghost function Earliest(ms: seq<Message>, i: nat, id: string): (t: nat)
    requires i < |ms| && HasAnswer(ms, i, id)
    ensures AnswerAt(ms, i, id, t) && forall u :: AnswerAt(ms, i, id, u) ==> t <= u
  {
    EarliestExists(ms, i, id);
    var t: nat :| AnswerAt(ms, i, id, t) && forall u :: AnswerAt(ms, i, id, u) ==> t <= u;
    t
  }

  lemma {:induction false} EarliestExists(ms: seq<Message>, i: nat, id: string)
    requires i < |ms| && HasAnswer(ms, i, id)
    ensures exists t: nat :: AnswerAt(ms, i, id, t) && forall u :: AnswerAt(ms, i, id, u) ==> t <= u
  {
    var t :| AnswerAt(ms, i, id, t);
    var least := t;
    while exists u :: AnswerAt(ms, i, id, u) && u < least
      invariant AnswerAt(ms, i, id, least)
      decreases least
    {
      var u :| AnswerAt(ms, i, id, u) && u < least;
      least := u;
    }
  }

  /** The `k`-th call is kept. */
  ghost predicate Survives(ms: seq<Message>, i: nat, k: nat)
    requires i < |ms| && k < |ms[i].calls|
  {
    FirstUse(ms[i].calls, k) && HasAnswer(ms, i, ms[i].calls[k].id)
  }

  /** The earliest answers to the surviving calls, in call order. */
  ghost function SurvivingAnswers(ms: seq<Message>, i: nat, k: nat): seq<Message>
    requires i < |ms| && k <= |ms[i].calls|
    decreases |ms[i].calls| - k
  {
    if k == |ms[i].calls| then []
    else
      (if Survives(ms, i, k) then [ms[Earliest(ms, i, ms[i].calls[k].id)]] else []) + SurvivingAnswers(ms, i, k + 1)
  }

  /** What becomes of the message at `i`; tool messages appear with their announcement. */
  ghost function Outcome(ms: seq<Message>, i: nat): seq<Message>
    requires i < |ms|
  {
    var m := ms[i];
    if m.role == Tool then []
    else if !Calling(m) then [m]
    else if Survivors(ms, i, 0) != [] then [m.(calls := Survivors(ms, i, 0))] + SurvivingAnswers(ms, i, 0)
    else if Trim(m.content) != "" then [m.(calls := [])]
    else []
  }

  ghost function Outcomes(ms: seq<Message>, i: nat): seq<Message>
    requires i <= |ms|
    decreases |ms| - i
  {
    if i == |ms| then [] else Outcome(ms, i) + Outcomes(ms, i + 1)
  }

  lemma {:induction false} RunBehind(ms: seq<Message>, i: nat, n: nat)
    requires i < |ms| && n == RunLength(ms[i + 1..])
    ensures i + 1 + n <= |ms|
    ensures forall u :: i < u < i + 1 + n ==> ms[u].role == Tool
    ensures i + 1 + n < |ms| ==> ms[i + 1 + n].role != Tool
  {
    var rest := ms[i + 1..];
    RunLengthTools(rest);
    assert forall u :: i < u < i + 1 + n ==> rest[u - i - 1] == ms[u];
    assert i + 1 + n < |ms| ==> rest[n] == ms[i + 1 + n];
  }

  /** Where `FirstAnswer` finds its answer, or the length of the run. */
  lemma {:induction false} FirstAnswerIndex(run: seq<Message>, id: string) returns (t: nat)
    ensures t <= |run| && forall u :: 0 <= u < t ==> run[u].callId != Some(id)
    ensures FirstAnswer(run, id) == if t < |run| then Some(run[t]) else None
    ensures t < |run| ==> run[t].callId == Some(id)
  {
    if run == [] || run[0].callId == Some(id) {
      t := 0;
    } else {
      var t' := FirstAnswerIndex(run[1..], id);
      t := t' + 1;
    }
  }

  /** `FirstAnswer` on the run finds the earliest answer. */
  lemma {:induction false} FirstIsEarliest(ms: seq<Message>, i: nat, n: nat, id: string)
    requires i < |ms| && i + 1 + n <= |ms| && n == RunLength(ms[i + 1..])
    ensures var a := FirstAnswer(ms[i + 1..i + 1 + n], id);
            && (a.Some? <==> HasAnswer(ms, i, id))
            && (a.Some? ==> a.value == ms[Earliest(ms, i, id)])
  {
    var run := ms[i + 1..i + 1 + n];
    RunBehind(ms, i, n);
    var t := FirstAnswerIndex(run, id);
    hide RunLength, FirstAnswer;
    assert forall u :: i < u < i + 1 + n ==> ms[u] == run[u - i - 1];
    if t < n {
      assert AnswerAt(ms, i, id, i + 1 + t);
    }
    assert forall u :: AnswerAt(ms, i, id, u) ==> i + 1 + t <= u < i + 1 + n;
  }

  /** Declared and answered, as the loop sees it, is surviving, as the contract sees it. */
  lemma {:induction false} SurvivorsAreKept(ms: seq<Message>, i: nat, n: nat, k: nat, seen: set<string>)
    requires i < |ms| && k <= |ms[i].calls| && i + 1 + n <= |ms| && n == RunLength(ms[i + 1..])
    requires seen == set j | 0 <= j < k :: ms[i].calls[j].id
    ensures var declared, run := Declared(ms[i].calls[k..], seen), ms[i + 1..i + 1 + n];
            AnsweredCalls(declared, run) == Survivors(ms, i, k) && AnswersTo(declared, run) == SurvivingAnswers(ms, i, k)
    decreases |ms[i].calls| - k
  {
    var calls, run := ms[i].calls, ms[i + 1..i + 1 + n];
    if k < |calls| {
      var seen' := seen + {calls[k].id};
      var rest := Declared(calls[k + 1..], seen');
      assert seen' == set j | 0 <= j < k + 1 :: calls[j].id;
      assert FirstUse(calls, k) <==> calls[k].id != "" && calls[k].id !in seen;
      DeclaredStep(calls, k, seen);
      AnsweredCons(calls[k], rest, run);
      SurvivorsStep(ms, i, k);
      FirstIsEarliest(ms, i, n, calls[k].id);
      hide Declared, AnsweredCalls, AnswersTo, FirstAnswer, Survivors, SurvivingAnswers, HasAnswer, FirstUse, RunLength;
      SurvivorsAreKept(ms, i, n, k + 1, seen');
    }
  }

  lemma {:induction false} DeclaredStep(calls: seq<ToolCall>, k: nat, seen: set<string>)
    requires k < |calls|
    ensures var rest := Declared(calls[k + 1..], seen + {calls[k].id});
            Declared(calls[k..], seen) == if calls[k].id != "" && calls[k].id !in seen then [calls[k]] + rest else rest
  {
    assert calls[k..][1..] == calls[k + 1..];
  }

  lemma {:induction false} SurvivorsStep(ms: seq<Message>, i: nat, k: nat)
    requires i < |ms| && k < |ms[i].calls|
    ensures Survives(ms, i, k) ==>
              && Survivors(ms, i, k) == [ms[i].calls[k]] + Survivors(ms, i, k + 1)
              && SurvivingAnswers(ms, i, k) == [ms[Earliest(ms, i, ms[i].calls[k].id)]] + SurvivingAnswers(ms, i, k + 1)
    ensures !Survives(ms, i, k) ==>
              && Survivors(ms, i, k) == Survivors(ms, i, k + 1)
              && SurvivingAnswers(ms, i, k) == SurvivingAnswers(ms, i, k + 1)
  {
    hide Survives;
  }

  /** Tool messages behind an announcement contribute nothing of their own. */
  lemma {:induction false} ToolsVanish(ms: seq<Message>, i: nat, n: nat)
    requires i + n <= |ms| && forall u :: i <= u < i + n ==> ms[u].role == Tool
    ensures Outcomes(ms, i) == Outcomes(ms, i + n)
    decreases n
  {
    hide Survivors, SurvivingAnswers;
    if n > 0 {
      ToolsVanish(ms, i + 1, n - 1);
      assert Outcome(ms, i) == [];
      assert [] + Outcomes(ms, i + 1) == Outcomes(ms, i + 1);
    }
  }

  lemma {:induction false} RunVanishes(ms: seq<Message>, i: nat, n: nat)
    requires i < |ms| && n == RunLength(ms[i + 1..])
    ensures i + 1 + n <= |ms| && Outcomes(ms, i + 1) == Outcomes(ms, i + 1 + n)
  {
    hide Outcomes;
    RunBehind(ms, i, n);
    ToolsVanish(ms, i + 1, n);
  }

  lemma {:induction false} RepairedIsOutcome(ms: seq<Message>, i: nat, n: nat)
    requires i < |ms| && Calling(ms[i]) && i + 1 + n <= |ms| && n == RunLength(ms[i + 1..])
    ensures Repaired(ms[i], ms[i + 1..i + 1 + n]) == Outcome(ms, i)
  {
    hide Declared, AnsweredCalls, AnswersTo, Survivors, SurvivingAnswers, Trim, RunLength;
    assert ms[i].calls[0..] == ms[i].calls;
    SurvivorsAreKept(ms, i, n, 0, {});
  }

  lemma {:induction false} OutcomesStep(ms: seq<Message>, i: nat)
    requires i < |ms|
    ensures Outcomes(ms, i) == Outcome(ms, i) + Outcomes(ms, i + 1)
    ensures ms[i].role == Tool ==> Outcomes(ms, i) == Outcomes(ms, i + 1)
    ensures ms[i].role != Tool && !Calling(ms[i]) ==> Outcomes(ms, i) == [ms[i]] + Outcomes(ms, i + 1)
  {
    hide Survivors, SurvivingAnswers;
    assert [] + Outcomes(ms, i + 1) == Outcomes(ms, i + 1);
  }

  lemma {:induction false} EnforcePlain(ms: seq<Message>, i: nat)
    requires i < |ms| && !Calling(ms[i])
    ensures ms[i].role == Tool ==> Enforce(ms[i..]) == Enforce(ms[i + 1..])
    ensures ms[i].role != Tool ==> Enforce(ms[i..]) == [ms[i]] + Enforce(ms[i + 1..])
  {
    assert ms[i..][0] == ms[i] && ms[i..][1..] == ms[i + 1..];
  }

  lemma {:induction false} EnforceCalling(ms: seq<Message>, i: nat, run: seq<Message>, rest: seq<Message>)
    requires i < |ms| && Calling(ms[i])
    requires var n := RunLength(ms[i + 1..]);
             i + 1 + n <= |ms| && run == ms[i + 1..i + 1 + n] && rest == ms[i + 1 + n..]
    ensures Enforce(ms[i..]) == Repaired(ms[i], run) + Enforce(rest)
  {
    hide Repaired, RunLength;
    var tail, n := ms[i..], RunLength(ms[i + 1..]);
    assert tail[0] == ms[i] && tail[1..] == ms[i + 1..];
    assert tail[1..n + 1] == run && tail[n + 1..] == rest;
  }

  /** An announcement and the run behind it, in both views. */
  lemma {:induction false} CallingStep(ms: seq<Message>, i: nat) returns (j: nat, block: seq<Message>)
    requires i < |ms| && Calling(ms[i])
    ensures i < j <= |ms|
    ensures Enforce(ms[i..]) == block + Enforce(ms[j..])
    ensures Outcomes(ms, i) == block + Outcomes(ms, j)
  {
    hide *;
    var n := RunLength(ms[i + 1..]);
    j := i + 1 + n;
    block := Repaired(ms[i], ms[i + 1..j]);
    EnforceCalling(ms, i, ms[i + 1..j], ms[j..]);
    RepairedIsOutcome(ms, i, n);
    RunVanishes(ms, i, n);
    OutcomesStep(ms, i);
  }

  lemma {:induction false} EnforceIsOutcomesFrom(ms: seq<Message>, i: nat)
    requires i <= |ms|
    ensures Enforce(ms[i..]) == Outcomes(ms, i)
    decreases |ms| - i
  {
    if i == |ms| {
      EnforceNothing(ms[i..]);
    } else if Calling(ms[i]) {
      hide *;
      var j, block := CallingStep(ms, i);
      EnforceIsOutcomesFrom(ms, j);
    } else {
      EnforcePlain(ms, i);
      OutcomesStep(ms, i);
      hide *;
      EnforceIsOutcomesFrom(ms, i + 1);
    }
  }

  /** A call and its answer survive exactly when the id is nonempty, declared here first
      and answered in the run of tool messages directly behind; every other system, user
      and text-only message survives as it is; the order never changes. */
  lemma {:induction false} EnforceIsOutcomes(ms: seq<Message>)
    ensures Enforce(ms) == Outcomes(ms, 0)
  {
    EnforceIsOutcomesFrom(ms, 0);
    assert ms[0..] == ms;
  }
}
