/** The context budget of `harness-runtime/src/agent_loop.rs`: the latest turns that fit,
    and a note on the rest. */
module Budget {
  import opened Options
  import opened Text
  import opened Lines
  import opened Transcript

  // ---------- sizes ----------

  function CallChars(calls: seq<ToolCall>): nat {
    if calls == [] then 0 else ByteLength(calls[0].name) + |calls[0].args| + CallChars(calls[1..])
  }

  function MessageChars(m: Message): nat {
    |m.content| + CallChars(m.calls)
  }

  function Chars(ms: seq<Message>): nat {
    if ms == [] then 0 else MessageChars(ms[0]) + Chars(ms[1..])
  }

  lemma {:induction false} CharsAppend(a: seq<Message>, b: seq<Message>)
    ensures Chars(a + b) == Chars(a) + Chars(b)
  {
    if a == [] {
      assert a + b == b;
    } else {
      assert (a + b)[1..] == a[1..] + b;
      CharsAppend(a[1..], b);
    }
  }

  lemma {:induction false} CharsTail(ms: seq<Message>, i: nat, j: nat)
    requires i <= j <= |ms|
    ensures Chars(ms[i..]) == Chars(ms[i..j]) + Chars(ms[j..])
  {
    assert ms[i..] == ms[i..j] + ms[j..];
    CharsAppend(ms[i..j], ms[j..]);
  }

  // ---------- the budget ----------

  /** The configured budget, its default and its bounds. */
  function ClampBudget(configured: Option<nat>): (b: nat)
    ensures 12_000 <= b <= 240_000
    ensures configured == None ==> b == 96_000
    ensures configured.Some? ==>
              var wanted := configured.value;
              (12_000 <= wanted <= 240_000 ==> b == wanted) && (b < wanted ==> b == 240_000) && (b > wanted ==> b == 12_000)
  {
    var wanted := if configured.Some? then configured.value else 96_000;
    if wanted < 12_000 then 12_000 else if wanted > 240_000 then 240_000 else wanted
  }

  const SUMMARY_LIMIT := 4_000

  predicate UserAt(ms: seq<Message>, i: int) {
    0 <= i < |ms| && ms[i].role == User
  }

  ghost predicate LastUser(ms: seq<Message>, i: int) {
    UserAt(ms, i) && forall j :: i < j ==> !UserAt(ms, j)
  }

  /** The start of the kept suffix: whole turns, as many as fit, but at least the last. */
  ghost predicate KeptFrom(ms: seq<Message>, limit: nat, start: int) {
    && UserAt(ms, start)
    && (LastUser(ms, start) || Chars(ms[start..]) <= limit)
    && forall u :: UserAt(ms, u) && u < start ==> Chars(ms[u..]) > limit
  }

  /** There is only one such start. */
  lemma {:induction false} KeptFromUnique(ms: seq<Message>, limit: nat, s: int, s': int)
    requires KeptFrom(ms, limit, s) && KeptFrom(ms, limit, s')
    ensures s == s'
  {
  }

  ghost predicate StartsOf(ms: seq<Message>, starts: seq<nat>) {
    && (forall k :: 0 <= k < |starts| ==> UserAt(ms, starts[k]))
    && (forall k, l :: 0 <= k < l < |starts| ==> starts[k] < starts[l])
    && (forall i :: UserAt(ms, i) ==> i in starts)
  }

  /** Positions of user messages, in order. */
  method UserStarts(ms: seq<Message>) returns (starts: seq<nat>)
    ensures StartsOf(ms, starts)
  {
    starts := [];
    for i := 0 to |ms|
      invariant forall k :: 0 <= k < |starts| ==> UserAt(ms, starts[k]) && starts[k] < i
      invariant forall k, l :: 0 <= k < l < |starts| ==> starts[k] < starts[l]
      invariant forall j :: UserAt(ms, j) && j < i ==> j in starts
    {
      if ms[i].role == User {
        starts := starts + [i];
      }
    }
  }

  lemma {:induction false} EarlierTurnsAreLonger(ms: seq<Message>, u: nat, v: nat)
    requires u <= v <= |ms|
    ensures Chars(ms[u..]) >= Chars(ms[v..])
  {
    CharsTail(ms, u, v);
  }

  lemma {:induction false} LastStart(ms: seq<Message>, starts: seq<nat>)
    requires StartsOf(ms, starts) && starts != []
    ensures LastUser(ms, starts[|starts| - 1])
  {
    var last := starts[|starts| - 1];
    forall j | last < j
      ensures !UserAt(ms, j)
    {
      assert UserAt(ms, j) ==> j in starts;
    }
  }

  /** The loop that walks back over earlier turns while they fit. */
  method WalkBack(ms: seq<Message>, limit: nat, starts: seq<nat>) returns (k: nat)
    requires StartsOf(ms, starts) && starts != []
    ensures k < |starts|
    ensures k == |starts| - 1 || Chars(ms[starts[k]..]) <= limit
    ensures k == 0 || Chars(ms[starts[k - 1]..]) > limit
  {
    k := |starts| - 1;
    var retained := Chars(ms[starts[k]..]);
    while k > 0
      invariant 0 <= k < |starts|
      invariant retained == Chars(ms[starts[k]..])
      invariant k == |starts| - 1 || retained <= limit
    {
      var start, candidate := starts[k], starts[k - 1];
      CharsTail(ms, candidate, start);
      var added := Chars(ms[candidate..start]);
      if retained + added > limit {
        return;
      }
      retained, k := retained + added, k - 1;
    }
  }

  method FindStart(ms: seq<Message>, limit: nat) returns (start: Option<nat>)
    ensures start.None? ==> forall i :: !UserAt(ms, i)
    ensures start.Some? ==> KeptFrom(ms, limit, start.value)
  {
    hide Chars;
    var starts := UserStarts(ms);
    if starts == [] {
      forall i
        ensures !UserAt(ms, i)
      {
        assert UserAt(ms, i) ==> i in starts;
      }
      return None;
    }
    var k := WalkBack(ms, limit, starts);
    LastStart(ms, starts);
    forall u | UserAt(ms, u) && u < starts[k]
      ensures Chars(ms[u..]) > limit
    {
      assert u in starts;
      EarlierTurnsAreLonger(ms, u, starts[k - 1]);
    }
    start := Some(starts[k]);
  }

  // ---------- the summary of what is left out ----------

  /** `split_whitespace` */
  function Words(s: string): seq<string>
    decreases |s|
  {
    var rest := TrimStart(s);
    if rest == [] then []
    else
      var n := WordLength(rest);
      [rest[..n]] + Words(rest[n..])
  }

  function WordLength(s: string): (n: nat)
    ensures n <= |s|
    ensures s != [] && !IsWhite(s[0]) ==> n > 0
  {
    if s == [] || IsWhite(s[0]) then 0 else 1 + WordLength(s[1..])
  }

  function JoinWords(words: seq<string>): string {
    if words == [] then ""
    else if |words| == 1 then words[0]
    else words[0] + " " + JoinWords(words[1..])
  }

  const EXCERPT := 480

  function SummaryHeader(omitted: nat): string {
    "[较早会话已按上下文预算压缩，共省略 " + Decimal(omitted) + " 条消息]\n"
  }

  function SummaryLine(m: Message): string {
    (if m.role == User then "用户" else "助手") + ": " + Take(JoinWords(Words(m.content)), EXCERPT) + "\n"
  }

  predicate Spoken(m: Message) {
    m.role in {User, Assistant} && Trim(m.content) != ""
  }

  /** The lines of a stretch of conversation, newest first. */
  function SpokenLines(older: seq<Message>): seq<string> {
    if older == [] then []
    else
      var m := older[|older| - 1];
      (if Spoken(m) then [SummaryLine(m)] else []) + SpokenLines(older[..|older| - 1])
  }

  method BuildSummary(header: string, older: seq<Message>) returns (summary: string)
    ensures summary == Fill(header, SpokenLines(older), SUMMARY_LIMIT)
  {
    summary := header;
    var i := |older|;
    assert older[..i] == older;
    while i > 0
      invariant 0 <= i <= |older|
      invariant Fill(header, SpokenLines(older), SUMMARY_LIMIT)
                == Fill(summary, SpokenLines(older[..i]), SUMMARY_LIMIT)
    {
      var m := older[i - 1];
      assert older[..i][..i - 1] == older[..i - 1];
      var spoken := SpokenLines(older[..i - 1]);
      i := i - 1;
      if !Spoken(m) {
        assert SpokenLines(older[..i + 1]) == spoken;
        continue;
      }
      var line := SummaryLine(m);
      assert SpokenLines(older[..i + 1]) == [line] + spoken;
      if |summary| + |line| > SUMMARY_LIMIT {
        return;
      }
      summary := summary + line;
    }
  }

  // ---------- the result ----------

  /** The leftmost turn from which everything fits, or the last one. */
  ghost function Start(ms: seq<Message>, limit: nat, from: nat): (start: Option<nat>)
    requires from <= |ms|
    ensures start.Some? ==>
              && from <= start.value && UserAt(ms, start.value)
              && (LastUser(ms, start.value) || Chars(ms[start.value..]) <= limit)
              && forall u :: UserAt(ms, u) && from <= u < start.value ==> Chars(ms[u..]) > limit
    ensures start.None? ==> forall u :: from <= u ==> !UserAt(ms, u)
    decreases |ms| - from
  {
    if from == |ms| then None
    else if UserAt(ms, from) && (LastUser(ms, from) || Chars(ms[from..]) <= limit) then Some(from)
    else Start(ms, limit, from + 1)
  }

  function Systems(ms: seq<Message>): (r: seq<Message>)
    ensures |r| <= |ms|
  {
    if ms == [] then []
    else IfSystem(ms[0]) + Systems(ms[1..])
  }

  function IfSystem(m: Message): (r: seq<Message>)
    ensures |r| <= 1
  {
    if m.role == System then [m] else []
  }

  /** What replaces everything in front of the kept turns. */
  function Condensed(older: seq<Message>): seq<Message>
    requires older != []
  {
    var systems := Systems(older);
    systems + [SystemNote(Fill(SummaryHeader(|older| - |systems|), SpokenLines(older[1..]), SUMMARY_LIMIT))]
  }

  ghost function ApplyBudget(ms: seq<Message>, budget: nat): seq<Message>
    requires budget >= SUMMARY_LIMIT
  {
    if Chars(ms) <= budget then ms
    else
      match Start(ms, budget - SUMMARY_LIMIT, 0)
      case None => ms
      case Some(start) => if start <= 1 then ms else Condensed(ms[..start]) + ms[start..]
  }

  method ApplyContextBudget(ms: seq<Message>, budget: nat) returns (result: seq<Message>)
    requires budget >= SUMMARY_LIMIT
    ensures result == ApplyBudget(ms, budget)
  {
    var total := Chars(ms);
    if total <= budget {
      return ms;
    }
    var found := FindStart(ms, budget - SUMMARY_LIMIT);
    if found.None? {
      return ms;
    }
    var start := found.value;
    KeptFromUnique(ms, budget - SUMMARY_LIMIT, start, Start(ms, budget - SUMMARY_LIMIT, 0).value);
    if start <= 1 {
      return ms;
    }
    var older := ms[..start];
    result := Systems(older);
    var summary := BuildSummary(SummaryHeader(start - |result|), older[1..]);
    result := result + [SystemNote(summary)] + ms[start..];
  }

  // ---------- what the budget guarantees ----------

  lemma {:induction false} CondensedShort(older: seq<Message>)
    requires older != [] && |older| < 0x1_0000_0000_0000_0000
    ensures Chars(Condensed(older)) <= Chars(Systems(older)) + SUMMARY_LIMIT
  {
    var systems := Systems(older);
    var omitted := |older| - |systems|;
    UsizeDigits(omitted);
    CharsAppend(systems, [SystemNote(Fill(SummaryHeader(omitted), SpokenLines(older[1..]), SUMMARY_LIMIT))]);
  }

  lemma {:induction false} SystemsAppend(a: seq<Message>, b: seq<Message>)
    ensures Systems(a + b) == Systems(a) + Systems(b)
  {
    if a == [] {
      assert a + b == b;
    } else {
      hide IfSystem;
      assert (a + b)[1..] == a[1..] + b;
      SystemsAppend(a[1..], b);
      Assoc(IfSystem(a[0]), Systems(a[1..]), Systems(b));
    }
  }

  /** If the last turn fits, only system messages in front of the kept turns exceed the budget. */
  lemma {:induction false} BudgetBound(ms: seq<Message>, budget: nat, last: nat)
    requires budget >= SUMMARY_LIMIT && |ms| < 0x1_0000_0000_0000_0000
    requires ms != [] && ms[0].role == System
    requires LastUser(ms, last) && Chars(ms[last..]) <= budget - SUMMARY_LIMIT
    ensures Chars(ApplyBudget(ms, budget)) <= budget + Chars(Systems(ms))
  {
    hide Condensed, Systems;
    if Chars(ms) > budget {
      var start := Start(ms, budget - SUMMARY_LIMIT, 0);
      assert start.Some? by {
        assert start.None? ==> !UserAt(ms, last);
      }
      var k := start.value;
      assert Chars(ms[k..]) <= budget - SUMMARY_LIMIT by {
        if LastUser(ms, k) {
          assert k == last;
        }
      }
      assert k > 0;
      assert ms == ms[..k] + ms[k..];
      SystemsAppend(ms[..k], ms[k..]);
      CharsAppend(Systems(ms[..k]), Systems(ms[k..]));
      if k <= 1 {
        FirstSystem(ms);
        CharsAppend(ms[..1], ms[1..]);
      } else {
        CondensedShort(ms[..k]);
        CharsAppend(Condensed(ms[..k]), ms[k..]);
      }
    }
  }

  lemma {:induction false} FirstSystem(ms: seq<Message>)
    requires ms != [] && ms[0].role == System
    ensures Systems(ms[..1]) == ms[..1]
  {
    assert Systems(ms[..1][1..]) == [];
  }

  // ---------- the budget and the adjacency contract ----------

  /** A valid transcript can be cut in front of a user message. */
  lemma {:induction false} CutAtUser(ms: seq<Message>, k: nat)
    requires Valid(ms) && UserAt(ms, k)
    ensures Valid(ms[k..])
  {
    forall t | k <= t < |ms| && ms[t].role == Tool
      ensures OwnedFrom(ms, k, t)
    {
      assert OwnedAt(ms, t);
      var i :| 0 <= i < t && Calling(ms[i]) && t <= i + |ms[i].calls|;
      assert AnsweredAt(ms, i);
      var j := k - i - 1;
      assert 0 <= j ==> j < |ms[i].calls| && Answers(ms[i + 1 + j], ms[i].calls[j]);
    }
    ValidDrop(ms, k);
  }

  lemma {:induction false} SystemsInFront(front: seq<Message>, rest: seq<Message>)
    requires forall m :: m in front ==> m.role == System
    requires ValidTurns(rest)
    ensures ValidTurns(front + rest)
  {
    if front == [] {
      assert front + rest == rest;
    } else {
      SystemsInFront(front[1..], rest);
      assert (front + rest)[1..] == front[1..] + rest;
      assert front[0] in front;
    }
  }

  lemma {:induction false} SystemsAreSystem(ms: seq<Message>)
    ensures forall m :: m in Systems(ms) ==> m.role == System
  {
    if ms != [] {
      SystemsAreSystem(ms[1..]);
    }
  }

  lemma {:induction false} BudgetKeepsValid(ms: seq<Message>, budget: nat)
    requires budget >= SUMMARY_LIMIT && Valid(ms)
    ensures Valid(ApplyBudget(ms, budget))
  {
    var out := ApplyBudget(ms, budget);
    if out != ms {
      var k := Start(ms, budget - SUMMARY_LIMIT, 0).value;
      CutAtUser(ms, k);
      ValidIsTurns(ms[k..]);
      SystemsAreSystem(ms[..k]);
      SystemsInFront(Condensed(ms[..k]), ms[k..]);
      ValidIsTurns(out);
    }
  }

  /** The result keeps whole turns: the longest run that fits, and at least the last one.
      Everything older is condensed to its system messages and one note. */
  lemma {:induction false} BudgetKeepsLongest(ms: seq<Message>, budget: nat, k: nat)
    requires budget >= SUMMARY_LIMIT && KeptFrom(ms, budget - SUMMARY_LIMIT, k)
    ensures ApplyBudget(ms, budget) == if Chars(ms) <= budget || k <= 1 then ms else Condensed(ms[..k]) + ms[k..]
  {
    hide Chars, Condensed;
    var limit := budget - SUMMARY_LIMIT;
    var start := Start(ms, limit, 0);
    assert start.None? ==> !UserAt(ms, k);
    KeptFromUnique(ms, limit, k, start.value);
  }

  /** Nothing is cut from a conversation without a user message. */
  lemma {:induction false} CutNeedsUser(ms: seq<Message>, budget: nat)
    requires budget >= SUMMARY_LIMIT && ApplyBudget(ms, budget) != ms
    ensures Chars(ms) > budget && exists u :: UserAt(ms, u)
  {
    assert UserAt(ms, Start(ms, budget - SUMMARY_LIMIT, 0).value);
  }
}
