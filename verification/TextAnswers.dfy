/** Two text answers in a row, which providers do not take: when the repaired history has them. */
module TextAnswers {
  import opened Options
  import opened Lines
  import opened Transcript
  import opened Protocol
  import opened ProtocolContract
  import opened Budget
  import opened Stale
  import opened Recovery
  import opened Rebuild
  import opened Pipeline
  import DsmlStreaming

  // ---------- what becomes a text answer ----------

  ghost predicate NoneSurvives(ms: seq<Message>, i: nat)
    requires i < |ms|
  {
    forall k :: 0 <= k < |ms[i].calls| ==> !Survives(ms, i, k)
  }

  /** A text answer, or an announcement with text that loses all its calls. */
  ghost predicate BecomesText(ms: seq<Message>, i: int) {
    && 0 <= i < |ms|
    && (PlainText(ms[i]) || (Calling(ms[i]) && NoneSurvives(ms, i) && Trim(ms[i].content) != ""))
  }

  /** A tool message, which shows with its announcement if at all, or an announcement without text
      that loses all its calls. */
  ghost predicate Vanishes(ms: seq<Message>, i: int) {
    && 0 <= i < |ms|
    && (ms[i].role == Tool || (Calling(ms[i]) && NoneSurvives(ms, i) && Trim(ms[i].content) == ""))
  }

  /** Two messages that become text answers, with nothing left between them. */
  ghost predicate TextPair(ms: seq<Message>, i: int, j: int) {
    i < j && BecomesText(ms, i) && BecomesText(ms, j) && forall k :: i < k < j ==> Vanishes(ms, k)
  }

  /** The next message from `i` on that is left becomes a text answer. */
  ghost predicate TextNext(ms: seq<Message>, i: int, j: int) {
    i <= j && BecomesText(ms, j) && forall k :: i <= k < j ==> Vanishes(ms, k)
  }

  // ---------- the outcome of one message ----------

  lemma {:induction false} SurvivorsEmpty(ms: seq<Message>, i: nat, k: nat)
    requires i < |ms| && k <= |ms[i].calls|
    ensures Survivors(ms, i, k) == [] <==> forall l :: k <= l < |ms[i].calls| ==> !Survives(ms, i, l)
    decreases |ms[i].calls| - k
  {
    hide Survives;
    if k < |ms[i].calls| {
      SurvivorsEmpty(ms, i, k + 1);
    }
  }

  lemma {:induction false} SurvivingAnswersAreTools(ms: seq<Message>, i: nat, k: nat)
    requires i < |ms| && k <= |ms[i].calls|
    ensures forall m :: m in SurvivingAnswers(ms, i, k) ==> m.role == Tool
    decreases |ms[i].calls| - k
  {
    if k < |ms[i].calls| {
      SurvivingAnswersAreTools(ms, i, k + 1);
    }
  }

  /** Nothing, one text answer, or a block in which no text answer stands. */
  lemma {:induction false} OutcomeShape(ms: seq<Message>, i: nat)
    requires i < |ms|
    ensures Vanishes(ms, i) <==> Outcome(ms, i) == []
    ensures BecomesText(ms, i) <==> |Outcome(ms, i)| == 1 && PlainText(Outcome(ms, i)[0])
    ensures !BecomesText(ms, i) ==> forall m :: m in Outcome(ms, i) ==> !PlainText(m)
  {
    hide Survives, Trim, Survivors, SurvivingAnswers;
    SurvivorsEmpty(ms, i, 0);
    SurvivingAnswersAreTools(ms, i, 0);
  }

  // ---------- the repaired transcript ----------

  predicate StartsWithText(ms: seq<Message>) {
    ms != [] && PlainText(ms[0])
  }

  lemma {:induction false} MergedAppend(a: seq<Message>, b: seq<Message>)
    ensures (forall m :: m in a ==> !PlainText(m)) ==> (TextsMerged(a + b) <==> TextsMerged(b))
    ensures |a| == 1 && PlainText(a[0]) ==> (TextsMerged(a + b) <==> TextsMerged(b) && !StartsWithText(b))
  {
    var ab := a + b;
    assert forall i :: 0 <= i < |b| ==> ab[|a| + i] == b[i];
    if TextsMerged(ab) {
      forall i | 0 < i < |b|
        ensures !(PlainText(b[i - 1]) && PlainText(b[i]))
      {
        assert b[i - 1] == ab[|a| + i - 1] && b[i] == ab[|a| + i];
      }
      if |a| == 1 && PlainText(a[0]) && b != [] {
        assert ab[1 - 1] == a[0] && ab[1] == b[0];
      }
    }
    if TextsMerged(b) && (forall m :: m in a ==> !PlainText(m)) {
      forall i | 0 < i < |ab|
        ensures !(PlainText(ab[i - 1]) && PlainText(ab[i]))
      {
        if i <= |a| {
          assert ab[i - 1] in a;
        } else {
          assert ab[i - 1] == b[i - 1 - |a|] && ab[i] == b[i - |a|];
        }
      }
    }
    if TextsMerged(b) && |a| == 1 && !StartsWithText(b) {
      forall i | 0 < i < |ab|
        ensures !(PlainText(ab[i - 1]) && PlainText(ab[i]))
      {
        assert i > 1 ==> ab[i - 1] == b[i - 2] && ab[i] == b[i - 1];
      }
    }
  }

  /** A message that vanishes is passed over. */
  lemma {:induction false} NextPassesOver(ms: seq<Message>, i: nat, n: nat)
    requires n == i + 1 && Vanishes(ms, i) && !BecomesText(ms, i)
    ensures (exists j :: TextNext(ms, i, j)) <==> exists j :: TextNext(ms, n, j)
  {
    hide BecomesText, Vanishes;
    if j :| TextNext(ms, i, j) {
      assert TextNext(ms, n, j);
    }
    if j :| TextNext(ms, n, j) {
      assert TextNext(ms, i, j);
    }
  }

  lemma {:induction false} NextIsHere(ms: seq<Message>, i: nat)
    requires !Vanishes(ms, i)
    ensures (exists j :: TextNext(ms, i, j)) <==> BecomesText(ms, i)
  {
    hide BecomesText, Vanishes;
    if j :| TextNext(ms, i, j) {
      assert j == i;
    }
    if BecomesText(ms, i) {
      assert TextNext(ms, i, i);
    }
  }

  lemma {:induction false} OutcomesStart(ms: seq<Message>, i: nat)
    requires i <= |ms|
    ensures StartsWithText(Outcomes(ms, i)) <==> exists j :: TextNext(ms, i, j)
    decreases |ms| - i
  {
    hide Outcome, BecomesText, Vanishes;
    Bounds(ms);
    if i < |ms| {
      hide TextNext;
      OutcomesStart(ms, i + 1);
      OutcomeShape(ms, i);
      if Vanishes(ms, i) {
        assert [] + Outcomes(ms, i + 1) == Outcomes(ms, i + 1);
        NextPassesOver(ms, i, i + 1);
      } else {
        NextIsHere(ms, i);
        assert Outcome(ms, i)[0] in Outcome(ms, i);
      }
    }
  }

  lemma {:induction false} Bounds(ms: seq<Message>)
    ensures forall j :: BecomesText(ms, j) ==> 0 <= j < |ms|
  {
  }

  /** No pair from `i` on: none further behind, and none that starts here. */
  lemma {:induction false} PairsFrom(ms: seq<Message>, i: nat, n: nat)
    requires n == i + 1
    ensures (forall p, q :: i <= p ==> !TextPair(ms, p, q))
       <==> (forall p, q :: n <= p ==> !TextPair(ms, p, q)) && !(BecomesText(ms, i) && exists q :: TextNext(ms, n, q))
  {
    hide BecomesText, Vanishes;
    if BecomesText(ms, i) {
      if q :| TextNext(ms, n, q) {
        assert TextPair(ms, i, q);
      }
    }
    if p, q :| i <= p && TextPair(ms, p, q) {
      assert p == i ==> TextNext(ms, n, q);
    }
  }

  lemma {:induction false} OutcomesMerged(ms: seq<Message>, i: nat)
    requires i <= |ms|
    ensures TextsMerged(Outcomes(ms, i)) <==> forall p, q :: i <= p ==> !TextPair(ms, p, q)
    decreases |ms| - i
  {
    hide Outcome, BecomesText, Vanishes;
    Bounds(ms);
    if i < |ms| {
      hide TextPair, TextNext, TextsMerged;
      OutcomesMerged(ms, i + 1);
      OutcomeShape(ms, i);
      OutcomesStart(ms, i + 1);
      MergedAppend(Outcome(ms, i), Outcomes(ms, i + 1));
      PairsFrom(ms, i, i + 1);
    }
  }

  /** The repaired transcript has two text answers in a row exactly when two messages become text
      answers and everything between them vanishes. */
  lemma {:induction false} EnforceMergedIff(ms: seq<Message>)
    ensures TextsMerged(Enforce(ms)) <==> forall i, j :: !TextPair(ms, i, j)
  {
    hide Outcomes, BecomesText, Vanishes;
    EnforceIsOutcomes(ms);
    OutcomesMerged(ms, 0);
    Bounds(ms);
  }

  // ---------- the stages before and after the repair ----------

  /** Both lists have plain text at the same positions. */
  lemma {:induction false} ShapeKeepsMerged(a: seq<Message>, b: seq<Message>)
    requires SameShape(a, b) && TextsMerged(a)
    ensures TextsMerged(b)
  {
    forall i | 0 < i < |b|
      ensures !(PlainText(b[i - 1]) && PlainText(b[i]))
    {
      assert !(PlainText(a[i - 1]) && PlainText(a[i]));
    }
  }

  lemma {:induction false} MergedTail(ms: seq<Message>)
    requires ms != [] && TextsMerged(ms)
    ensures TextsMerged(ms[1..])
    ensures PlainText(ms[0]) ==> !StartsWithText(ms[1..])
  {
    assert ms == [ms[0]] + ms[1..];
    assert forall m :: m in [ms[0]] ==> m == ms[0];
    MergedAppend([ms[0]], ms[1..]);
  }

  /** Removing error texts brings no two texts together: a text has no text beside it. */
  lemma {:induction false} StripKeepsMerged(ms: seq<Message>)
    requires TextsMerged(ms)
    ensures TextsMerged(StripErrorText(ms))
    ensures !StartsWithText(ms) ==> !StartsWithText(StripErrorText(ms))
  {
    hide TextsMerged, TrimStart;
    if ms == [] {
      StripNothing(ms);
    } else {
      MergedTail(ms);
      StripKeepsMerged(ms[1..]);
      assert forall m :: m in [ms[0]] ==> m == ms[0];
      MergedAppend([ms[0]], StripErrorText(ms[1..]));
      assert [] + StripErrorText(ms[1..]) == StripErrorText(ms[1..]);
    }
  }

  lemma {:induction false} BudgetKeepsMerged(ms: seq<Message>, budget: nat)
    requires budget >= SUMMARY_LIMIT && TextsMerged(ms)
    ensures TextsMerged(ApplyBudget(ms, budget))
  {
    hide Condensed, Start, TextsMerged;
    var out := ApplyBudget(ms, budget);
    if out != ms {
      var k := Start(ms, budget - SUMMARY_LIMIT, 0).value;
      assert out == Condensed(ms[..k]) + ms[k..];
      CondensedIsSystem(ms[..k]);
      MergedAppend(Condensed(ms[..k]), ms[k..]);
      MergedSuffix(ms, k);
    }
  }

  lemma {:induction false} MergedSuffix(ms: seq<Message>, k: nat)
    requires k <= |ms| && TextsMerged(ms)
    ensures TextsMerged(ms[k..])
  {
    forall i | 0 < i < |ms[k..]|
      ensures !(PlainText(ms[k..][i - 1]) && PlainText(ms[k..][i]))
    {
      assert ms[k..][i - 1] == ms[k + i - 1] && ms[k..][i] == ms[k + i];
    }
  }

  /** A note takes the place of a turn that shows no text answer, so it separates as the turn did. */
  lemma {:induction false} RecoverKeepsMerged(ms: seq<Message>)
    ensures TextsMerged(Recover(ms)) <==> TextsMerged(ms)
    ensures StartsWithText(Recover(ms)) <==> StartsWithText(ms)
    decreases |ms|
  {
    hide TextsMerged, Note, AnswerCount;
    if ms == [] {
    } else if !Incomplete(ms[0]) {
      RecoverKeepsMerged(ms[1..]);
      assert ms == [ms[0]] + ms[1..];
      assert forall m :: m in [ms[0]] ==> m == ms[0];
      MergedAppend([ms[0]], ms[1..]);
      MergedAppend([ms[0]], Recover(ms[1..]));
    } else {
      var n := AnswerCount(ms[0].calls, ms[1..]);
      RecoverKeepsMerged(ms[n + 1..]);
      NoteIsPlain(ms[0], ms[1..n + 1]);
      assert forall m :: m in [Note(ms[0], ms[1..n + 1])] ==> m.role == System;
      MergedAppend([Note(ms[0], ms[1..n + 1])], Recover(ms[n + 1..]));
      TurnShowsNoText(ms, n);
    }
  }

  lemma {:induction false} TurnShowsNoText(ms: seq<Message>, n: nat)
    requires ms != [] && Calling(ms[0]) && n == AnswerCount(ms[0].calls, ms[1..])
    ensures TextsMerged(ms) <==> TextsMerged(ms[n + 1..])
  {
    hide TextsMerged;
    AnswerCountTools(ms[0].calls, ms[1..]);
    assert forall j :: 1 <= j < n + 1 ==> ms[j] == ms[1..][j - 1];
    assert ms == ms[..n + 1] + ms[n + 1..];
    MergedAppend(ms[..n + 1], ms[n + 1..]);
  }

  // ---------- the outgoing history ----------

  /** The history in front of the protocol repair. */
  ghost function Trimmed(prompt: string, events: seq<Event>, budget: nat): seq<Message>
    requires budget >= SUMMARY_LIMIT
  {
    ApplyBudget(StripErrorText(CompressStale(Rebuilt(prompt, events))), budget)
  }

  /** No stage but the protocol repair puts two text answers in a row, and it does so exactly when
      all that separates two of them is lost calls and stray results. */
  lemma {:induction false} RequestMergedIff(prompt: string, events: seq<Event>, budget: nat, effort: Option<string>)
    requires budget >= SUMMARY_LIMIT
    ensures TextsMerged(Trimmed(prompt, events, budget))
    ensures TextsMerged(Request(prompt, events, budget, effort))
            <==> forall i, j :: !TextPair(Trimmed(prompt, events, budget), i, j)
  {
    hide *;
    var rebuilt := Rebuilt(prompt, events);
    RebuiltShape(prompt, events);
    CompressKeepsShape(rebuilt);
    ShapeKeepsMerged(rebuilt, CompressStale(rebuilt));
    StripKeepsMerged(CompressStale(rebuilt));
    BudgetKeepsMerged(StripErrorText(CompressStale(rebuilt)), budget);
    RequestIs(prompt, events, budget, effort);
    ReplayIs(prompt, events, budget);
    TrimmedIs(prompt, events, budget);
    EnforceMergedIff(Trimmed(prompt, events, budget));
    RecoverKeepsMerged(Replay(prompt, events, budget));
  }

  lemma {:induction false} TrimmedIs(prompt: string, events: seq<Event>, budget: nat)
    requires budget >= SUMMARY_LIMIT
    ensures Trimmed(prompt, events, budget) == ApplyBudget(StripErrorText(CompressStale(Rebuilt(prompt, events))), budget)
    ensures Prepare(CompressStale(Rebuilt(prompt, events)), budget) == Enforce(Trimmed(prompt, events, budget))
  {
    hide Rebuilt, CompressStale, StripErrorText, ApplyBudget, Enforce;
  }

  /** A log in which every call is answered at once never sends two text answers in a row. */
  lemma {:induction false} AnsweredLogsStayMerged(prompt: string, events: seq<Event>, budget: nat, effort: Option<string>)
    requires budget >= SUMMARY_LIMIT && Valid(Rebuilt(prompt, events))
    ensures TextsMerged(Request(prompt, events, budget, effort))
  {
    hide *;
    var rebuilt, trimmed := Rebuilt(prompt, events), Trimmed(prompt, events, budget);
    CompressKeepsShape(rebuilt);
    var stale := CompressStale(rebuilt);
    ValidIsTurns(stale);
    StripKeepsValid(stale);
    ValidIsTurns(StripErrorText(stale));
    BudgetKeepsValid(StripErrorText(stale), budget);
    TrimmedIs(prompt, events, budget);
    EnforceFixesExactlyValid(trimmed);
    EnforceMergedIff(trimmed);
    RequestMergedIff(prompt, events, budget, effort);
  }

  // ---------- a log that sends two text answers in a row ----------

  /** A question, a text with one call that is never answered, and one more text. */
  function LostCallLog(q: string, a: string, call: ToolCall, b: string): seq<Event> {
    [TurnStart(q), AssistantChunk(Some(a), [call], None), AssistantChunk(Some(b), [], None)]
  }

  function LostCallMessages(prompt: string, q: string, a: string, call: ToolCall, b: string): (ms: seq<Message>)
    ensures |ms| == 4
  {
    [SystemNote(prompt), Message(User, q, [], [], None, None),
     Message(Assistant, a, [], [call], None, None), Message(Assistant, b, [], [], None, None)]
  }

  lemma {:induction false} LogFolds(prompt: string, q: string, a: string, call: ToolCall, b: string)
    requires DsmlMarkers.Plain(a) && DsmlMarkers.Plain(b) && b != ""
    ensures Rebuilt(prompt, LostCallLog(q, a, call, b)) == LostCallMessages(prompt, q, a, call, b)
  {
    hide Dsml.Strip, CompressToolContext;
    var log, ms := LostCallLog(q, a, call, b), LostCallMessages(prompt, q, a, call, b);
    var l0 := Opening(prompt);
    var l1 := Step(l0, log[0]);
    var l2 := Step(l1, log[1]);
    var l3 := Step(l2, log[2]);
    assert l2.messages == ms[..3] && l2.messages[2].calls == [call];
    assert Gather("", None) == "" && TextOf(Some(b)) == b;
    assert l3 == Log(ms, "");
    assert log[1..][0] == log[1] && log[1..][1..] == [log[2]] && [log[2]][1..] == [];
    assert Steps(l0, log) == Steps(l1, log[1..]) == Steps(l2, [log[2]]) == Steps(l3, []) == l3;
    PlainIsVisible(a);
    PlainIsVisible(b);
    assert forall i :: 0 <= i < 4 ==> Clean(ms[i]) == ms[i];
    assert CleanAll(ms) == ms;
  }

  lemma {:induction false} PlainIsVisible(s: string)
    requires DsmlMarkers.Plain(s)
    ensures Dsml.Strip(s) == s
  {
    hide DsmlMarkers.Normalize, Dsml.HoldOpen;
    DsmlMarkers.NormalizePlain(s);
    DsmlStreaming.PlainShows(s);
    assert s[..|s|] == s;
  }

  /** An interrupted tool call between two texts: the call goes, and the texts meet. */
  lemma {:induction false} LostCallJoinsTexts(prompt: string, q: string, a: string, call: ToolCall, b: string,
                                             budget: nat, effort: Option<string>)
    requires budget >= SUMMARY_LIMIT
    requires DsmlMarkers.Plain(a) && DsmlMarkers.Plain(b) && Trim(a) != "" && b != ""
    requires !(ERROR_MARK <= TrimStart(b)) && Chars(LostCallMessages(prompt, q, a, call, b)) <= budget
    ensures !TextsMerged(Request(prompt, LostCallLog(q, a, call, b), budget, effort))
  {
    var ms := LostCallMessages(prompt, q, a, call, b);
    NoErrorText(prompt, q, a, call, b);
    FoldedHasPair(prompt, q, a, call, b);
    hide *;
    LogFolds(prompt, q, a, call, b);
    NothingStale(ms);
    StripNothing(ms);
    NothingCut(ms, budget);
    TrimmedIs(prompt, LostCallLog(q, a, call, b), budget);
    RequestMergedIff(prompt, LostCallLog(q, a, call, b), budget, effort);
  }

  lemma {:induction false} NothingCut(ms: seq<Message>, budget: nat)
    requires budget >= SUMMARY_LIMIT && Budget.Chars(ms) <= budget
    ensures ApplyBudget(ms, budget) == ms
  {
  }

  lemma {:induction false} NothingStale(ms: seq<Message>)
    requires forall m :: m in ms ==> m.role != Tool
    ensures CompressStale(ms) == ms
  {
  }

  lemma {:induction false} NoErrorText(prompt: string, q: string, a: string, call: ToolCall, b: string)
    requires !(ERROR_MARK <= TrimStart(b))
    ensures forall m :: m in LostCallMessages(prompt, q, a, call, b) ==> !ErrorText(m) && m.role != Tool
  {
    hide TrimStart;
  }

  lemma {:induction false} FoldedHasPair(prompt: string, q: string, a: string, call: ToolCall, b: string)
    requires Trim(a) != ""
    ensures TextPair(LostCallMessages(prompt, q, a, call, b), 2, 3)
  {
    hide Trim;
    var ms := LostCallMessages(prompt, q, a, call, b);
    assert ms[3].role == Assistant;
    assert !HasAnswer(ms, 2, call.id);
    assert NoneSurvives(ms, 2);
  }
}
