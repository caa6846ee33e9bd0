/** The whole repair: any session log becomes a history that obeys the adjacency contract. */
module Pipeline {
  import opened Options
  import opened Text
  import opened Transcript
  import opened Protocol
  import opened ProtocolContract
  import opened Budget
  import opened Stale
  import opened Recovery
  import opened Rebuild

  /** `prepare_request_messages`: the last gate in front of a provider. */
  ghost function Prepare(ms: seq<Message>, budget: nat): seq<Message>
    requires budget >= SUMMARY_LIMIT
  {
    Enforce(ApplyBudget(StripErrorText(ms), budget))
  }

  /** `messages_from_events` with its clean-up, as a request starts from it. */
  ghost function Replay(prompt: string, events: seq<Event>, budget: nat): seq<Message>
    requires budget >= SUMMARY_LIMIT
  {
    Prepare(CompressStale(Rebuilt(prompt, events)), budget)
  }

  // ---------- user messages ----------

  function Users(ms: seq<Message>): seq<Message> {
    if ms == [] then [] else IfUser(ms[0]) + Users(ms[1..])
  }

  function IfUser(m: Message): (r: seq<Message>)
    ensures r == if m.role == User then [m] else []
  {
    if m.role == User then [m] else []
  }

  lemma {:induction false} UsersAppend(a: seq<Message>, b: seq<Message>)
    ensures Users(a + b) == Users(a) + Users(b)
  {
    hide IfUser;
    if a == [] {
      assert a + b == b;
    } else {
      assert (a + b)[1..] == a[1..] + b;
      UsersAppend(a[1..], b);
      Assoc(IfUser(a[0]), Users(a[1..]), Users(b));
    }
  }

  lemma {:induction false} NoUsers(ms: seq<Message>)
    requires forall m :: m in ms ==> m.role != User
    ensures Users(ms) == []
  {
    if ms != [] {
      assert ms[0] in ms;
      NoUsers(ms[1..]);
    }
  }

  lemma {:induction false} StripKeepsUsers(ms: seq<Message>)
    ensures Users(StripErrorText(ms)) == Users(ms)
  {
    hide ErrorText;
    if ms != [] {
      StripKeepsUsers(ms[1..]);
      UsersAppend(IfKept(ms[0]), StripErrorText(ms[1..]));
      UsersOfKept(ms[0]);
    }
  }

  lemma {:induction false} UsersOfKept(m: Message)
    ensures Users(IfKept(m)) == IfUser(m)
  {
    assert [m][1..] == [];
    assert IfUser(m) + [] == IfUser(m);
  }

  lemma {:induction false} RepairedHasNoUsers(m: Message, run: seq<Message>)
    requires m.role == Assistant && forall r :: r in run ==> r.role == Tool
    ensures Users(Repaired(m, run)) == []
  {
    AnswersFromRun(Declared(m.calls, {}), run);
    NoUsers(Repaired(m, run));
  }

  lemma {:induction false} AnswersFromRun(calls: seq<ToolCall>, run: seq<Message>)
    ensures forall r :: r in AnswersTo(calls, run) ==> r in run
  {
    if calls != [] {
      AnswersFromRun(calls[1..], run);
    }
  }

  lemma {:induction false} SkipUsers(ms: seq<Message>, k: nat)
    requires k <= |ms| && forall j :: 0 <= j < k ==> ms[j].role != User
    ensures Users(ms) == Users(ms[k..])
  {
    NoUsers(ms[..k]);
    assert ms == ms[..k] + ms[k..];
    UsersAppend(ms[..k], ms[k..]);
    assert [] + Users(ms[k..]) == Users(ms[k..]);
  }

  lemma {:induction false} EnforceKeepsUsers(ms: seq<Message>)
    ensures Users(Enforce(ms)) == Users(ms)
    decreases |ms|
  {
    hide Repaired, Users, RunLength;
    if ms == [] {
      assert Enforce(ms) == ms;
    } else if ms[0].role == Tool {
      SkipUsers(ms, 1);
      EnforceKeepsUsers(ms[1..]);
    } else if !Calling(ms[0]) {
      EnforceKeepsUsers(ms[1..]);
      assert ms == [ms[0]] + ms[1..];
      UsersAppend([ms[0]], ms[1..]);
      UsersAppend([ms[0]], Enforce(ms[1..]));
    } else {
      var n := RunLength(ms[1..]);
      RunLengthTools(ms[1..]);
      assert forall j :: 1 <= j < n + 1 ==> ms[j] == ms[1..][j - 1];
      SkipUsers(ms, n + 1);
      EnforceKeepsUsers(ms[n + 1..]);
      RepairedHasNoUsers(ms[0], ms[1..n + 1]);
      UsersAppend(Repaired(ms[0], ms[1..n + 1]), Enforce(ms[n + 1..]));
      assert [] + Users(Enforce(ms[n + 1..])) == Users(Enforce(ms[n + 1..]));
    }
  }

  lemma {:induction false} AnswerCountTools(calls: seq<ToolCall>, ms: seq<Message>)
    ensures forall j :: 0 <= j < AnswerCount(calls, ms) ==> ms[j].role == Tool
  {
    if ms != [] && AnswersOne(ms[0], calls) {
      AnswerCountTools(calls, ms[1..]);
    }
  }

  lemma {:induction false} NoteHasNoUsers(m: Message, run: seq<Message>, rest: seq<Message>)
    ensures Users([Note(m, run)] + rest) == Users(rest)
  {
    hide Note;
    NoteIsPlain(m, run);
    SkipUsers([Note(m, run)] + rest, 1);
    assert ([Note(m, run)] + rest)[1..] == rest;
  }

  lemma {:induction false} TurnHasNoUsers(ms: seq<Message>, n: nat)
    requires ms != [] && Calling(ms[0]) && n == AnswerCount(ms[0].calls, ms[1..])
    ensures n + 1 <= |ms| && Users(ms) == Users(ms[n + 1..])
  {
    AnswerCountTools(ms[0].calls, ms[1..]);
    assert forall j :: 1 <= j < n + 1 ==> ms[j] == ms[1..][j - 1];
    SkipUsers(ms, n + 1);
  }

  lemma {:induction false} UsersCons(m: Message, a: seq<Message>, b: seq<Message>)
    requires Users(a) == Users(b)
    ensures Users([m] + a) == Users([m] + b)
  {
    UsersAppend([m], a);
    UsersAppend([m], b);
  }

  lemma {:induction false} RecoverKeepsUsers(ms: seq<Message>)
    ensures Users(Recover(ms)) == Users(ms)
    decreases |ms|
  {
    hide Note, Users, AnswerCount;
    if ms == [] {
      assert Recover(ms) == ms;
    } else if !Incomplete(ms[0]) {
      RecoverKeepsUsers(ms[1..]);
      assert ms == [ms[0]] + ms[1..];
      UsersCons(ms[0], Recover(ms[1..]), ms[1..]);
    } else {
      var n := AnswerCount(ms[0].calls, ms[1..]);
      TurnHasNoUsers(ms, n);
      RecoverKeepsUsers(ms[n + 1..]);
      NoteHasNoUsers(ms[0], ms[1..n + 1], Recover(ms[n + 1..]));
    }
  }

  lemma {:induction false} CompressKeepsUsers(ms: seq<Message>, k: nat)
    requires k <= |ms|
    ensures Users(CompressStale(ms)[k..]) == Users(ms[k..])
    decreases |ms| - k
  {
    if k < |ms| {
      CompressKeepsUsers(ms, k + 1);
      assert CompressStale(ms)[k..][1..] == CompressStale(ms)[k + 1..];
      assert ms[k..][1..] == ms[k + 1..];
    }
  }

  ghost predicate IsSuffix<T>(s: seq<T>, all: seq<T>) {
    |s| <= |all| && all[|all| - |s|..] == s
  }

  /** The budget drops a prefix of the user messages, never the last one. */
  lemma {:induction false} BudgetKeepsUsers(ms: seq<Message>, budget: nat)
    requires budget >= SUMMARY_LIMIT
    ensures IsSuffix(Users(ApplyBudget(ms, budget)), Users(ms))
    ensures Users(ms) != [] ==> Users(ApplyBudget(ms, budget)) != []
  {
    hide Users, Condensed, Start;
    var out := ApplyBudget(ms, budget);
    if out != ms {
      var k := Start(ms, budget - SUMMARY_LIMIT, 0).value;
      assert UserAt(ms, k) && out == Condensed(ms[..k]) + ms[k..];
      assert ms == ms[..k] + ms[k..];
      UsersAppend(ms[..k], ms[k..]);
      CondensedIsSystem(ms[..k]);
      NoUsers(Condensed(ms[..k]));
      UsersAppend(Condensed(ms[..k]), ms[k..]);
      assert [] + Users(ms[k..]) == Users(ms[k..]);
      UsersFirst(ms[k..]);
    }
  }

  lemma {:induction false} UsersFirst(ms: seq<Message>)
    requires ms != [] && ms[0].role == User
    ensures Users(ms) != []
  {
  }

  lemma {:induction false} CondensedIsSystem(older: seq<Message>)
    requires older != []
    ensures forall m :: m in Condensed(older) ==> m.role == System
    ensures Condensed(older) != [] && (older[0].role == System ==> Condensed(older)[0] == older[0])
  {
    SystemsAreSystem(older);
  }

  // ---------- the system prompt ----------

  predicate Headed(ms: seq<Message>, head: Message) {
    ms != [] && ms[0] == head
  }

  lemma {:induction false} StagesKeepHead(ms: seq<Message>, budget: nat, head: Message)
    requires budget >= SUMMARY_LIMIT && head.role == System && Headed(ms, head)
    ensures Headed(StripErrorText(ms), head)
    ensures Headed(ApplyBudget(ms, budget), head)
    ensures Headed(Enforce(ms), head)
    ensures Headed(CompressStale(ms), head)
  {
    hide Start, Condensed;
    var out := ApplyBudget(ms, budget);
    if out != ms {
      var k := Start(ms, budget - SUMMARY_LIMIT, 0).value;
      CondensedIsSystem(ms[..k]);
      assert out[0] == Condensed(ms[..k])[0];
    }
  }

  // ---------- the pipeline ----------

  /** Whatever goes in, what comes out obeys the contract; a valid transcript inside the
      budget and free of error texts comes back as it was. */
  lemma {:induction false} PrepareIsValid(ms: seq<Message>, budget: nat)
    requires budget >= SUMMARY_LIMIT
    ensures Valid(Prepare(ms, budget))
    ensures Valid(ms) && Chars(ms) <= budget && (forall m :: m in ms ==> !ErrorText(m)) ==> Prepare(ms, budget) == ms
  {
    hide Enforce, ErrorText;
    EnforceFixesExactlyValid(ApplyBudget(StripErrorText(ms), budget));
    if forall m :: m in ms ==> !ErrorText(m) {
      StripNothing(ms);
    }
  }

  /** On a valid transcript the protocol stage has nothing left to do. */
  lemma {:induction false} PrepareValid(ms: seq<Message>, budget: nat)
    requires budget >= SUMMARY_LIMIT && Valid(ms)
    ensures Prepare(ms, budget) == ApplyBudget(StripErrorText(ms), budget)
  {
    ValidIsTurns(ms);
    StripKeepsValid(ms);
    ValidIsTurns(StripErrorText(ms));
    BudgetKeepsValid(StripErrorText(ms), budget);
    EnforceFixesExactlyValid(ApplyBudget(StripErrorText(ms), budget));
  }

  lemma {:induction false} PrepareKeepsUsers(ms: seq<Message>, budget: nat)
    requires budget >= SUMMARY_LIMIT
    ensures IsSuffix(Users(Prepare(ms, budget)), Users(ms))
    ensures Users(ms) != [] ==> Users(Prepare(ms, budget)) != []
  {
    hide Users, Enforce, StripErrorText;
    StripKeepsUsers(ms);
    BudgetKeepsUsers(StripErrorText(ms), budget);
    EnforceKeepsUsers(ApplyBudget(StripErrorText(ms), budget));
  }

  /** What survives a replay, before any recovery of reasoning. */
  lemma {:induction false} ReplayIsSound(prompt: string, events: seq<Event>, budget: nat)
    requires budget >= SUMMARY_LIMIT
    ensures var sent := Replay(prompt, events, budget);
            && Valid(sent) && Headed(sent, SystemNote(prompt))
            && IsSuffix(Users(sent), Users(Rebuilt(prompt, events)))
            && (Users(Rebuilt(prompt, events)) != [] ==> Users(sent) != [])
  {
    hide *;
    var rebuilt := Rebuilt(prompt, events);
    var stale := CompressStale(rebuilt);
    ReplayIs(prompt, events, budget);
    PrepareIsValid(stale, budget);
    ReplayHead(prompt, events, budget);
    CompressKeepsUsersAll(rebuilt);
    PrepareKeepsUsers(stale, budget);
  }

  /** The history a request carries for a configured effort, if any. */
  ghost function Request(prompt: string, events: seq<Event>, budget: nat, effort: Option<string>): seq<Message>
    requires budget >= SUMMARY_LIMIT
  {
    Outbound(if effort.Some? then NormalizeEffort(effort.value) else None, Replay(prompt, events, budget))
  }

  /** For every log and every setting: the outgoing history obeys the contract, the system prompt
      comes first, of the user's messages at most a prefix is gone, and unless thinking is
      switched off every announcement carries its reasoning. */
  lemma {:induction false} EndToEnd(prompt: string, events: seq<Event>, budget: nat, effort: Option<string>)
    requires budget >= SUMMARY_LIMIT
    ensures var out := Request(prompt, events, budget, effort);
            && Valid(out) && Headed(out, SystemNote(prompt))
            && IsSuffix(Users(out), Users(Rebuilt(prompt, events)))
            && (Users(Rebuilt(prompt, events)) != [] ==> Users(out) != [])
            && (Reasoned(out) || (effort.Some? && SwitchedOff(effort.value)))
  {
    hide *;
    var sent := Replay(prompt, events, budget);
    ReplayIsSound(prompt, events, budget);
    ValidIsTurns(sent);
    RecoverKeepsValid(sent);
    ValidIsTurns(Recover(sent));
    RecoverIsReasoned(sent);
    RecoverKeepsUsers(sent);
    RecoverKeepsHead(sent, SystemNote(prompt));
    RequestIs(prompt, events, budget, effort);
    if effort.Some? {
      NoneIffSwitchedOff(effort.value);
    }
  }

  lemma {:induction false} RecoverKeepsHead(ms: seq<Message>, head: Message)
    ensures head.role == System && Headed(ms, head) ==> Headed(Recover(ms), head)
  {
  }

  lemma {:induction false} RequestIs(prompt: string, events: seq<Event>, budget: nat, effort: Option<string>)
    requires budget >= SUMMARY_LIMIT
    ensures var sent, off := Replay(prompt, events, budget), effort.Some? && NormalizeEffort(effort.value) == Some("none");
            Request(prompt, events, budget, effort) == if off then sent else Recover(sent)
    ensures SystemNote(prompt).role == System
  {
    hide Replay, Recover, NormalizeEffort;
  }

  lemma {:induction false} ReplayIs(prompt: string, events: seq<Event>, budget: nat)
    requires budget >= SUMMARY_LIMIT
    ensures Replay(prompt, events, budget) == Prepare(CompressStale(Rebuilt(prompt, events)), budget)
  {
  }

  lemma {:induction false} CompressKeepsUsersAll(ms: seq<Message>)
    ensures Users(CompressStale(ms)) == Users(ms)
  {
    CompressKeepsUsers(ms, 0);
    assert CompressStale(ms)[0..] == CompressStale(ms) && ms[0..] == ms;
  }

  lemma {:induction false} ReplayHead(prompt: string, events: seq<Event>, budget: nat)
    requires budget >= SUMMARY_LIMIT
    ensures Headed(Replay(prompt, events, budget), SystemNote(prompt))
  {
    hide Rebuilt, CompressStale, StripErrorText, ApplyBudget, Enforce;
    var head := SystemNote(prompt);
    RebuiltShape(prompt, events);
    var stale := CompressStale(Rebuilt(prompt, events));
    StagesKeepHead(Rebuilt(prompt, events), budget, head);
    StagesKeepHead(stale, budget, head);
    StagesKeepHead(StripErrorText(stale), budget, head);
    StagesKeepHead(ApplyBudget(StripErrorText(stale), budget), budget, head);
  }
}
