/** Shrinking tool output and dropping error texts (`harness-runtime/src/agent_loop.rs`): the
    limit on one result, and the excerpts kept of stale ones. */
module Stale {
  import opened Text
  import opened Lines
  import opened Transcript

  // ---------- one tool result ----------

  const LIMIT := 16_000
  const HEAD_LINES := 36
  const MARKED_LINES := 24
  const TAIL_LINES := 28

  predicate Marked(line: string) {
    var lower := LowerAscii(line);
    Contains(lower, "error") || Contains(lower, "failed") || Contains(lower, "warning")
  }

  function MarkedOnly(lines: seq<string>): seq<string> {
    if lines == [] then []
    else (if Marked(lines[0]) then [lines[0]] else []) + MarkedOnly(lines[1..])
  }

  function TakeLast<T>(s: seq<T>, n: nat): seq<T> {
    if |s| <= n then s else s[|s| - n..]
  }

  /** `Vec::dedup`: repetitions in a row are one. */
  function Dedup(lines: seq<string>): seq<string> {
    if |lines| < 2 then lines
    else if lines[0] == lines[1] then Dedup(lines[1..])
    else [lines[0]] + Dedup(lines[1..])
  }

  function EndLines(lines: seq<string>): seq<string> {
    if lines == [] then [] else [lines[0] + "\n"] + EndLines(lines[1..])
  }

  function Selected(content: string): seq<string> {
    var lines := LinesOf(content);
    Dedup(Take(lines, HEAD_LINES) + Take(MarkedOnly(lines), MARKED_LINES) + TakeLast(lines, TAIL_LINES))
  }

  function CompressToolContext(content: string): string {
    if |content| <= LIMIT then content
    else Fill(CompressedHeader(content), EndLines(Selected(content)), LIMIT)
  }

  function CompressedHeader(content: string): string {
    "[工具输出已压缩：原 " + Decimal(|content|) + " 字符]\n"
  }

  /** The header and the first `k` of the selected lines, the next of which would not fit. */
  ghost predicate IsExcerpt(r: string, content: string, k: nat) {
    var lines := EndLines(Selected(content));
    && k <= |lines| && r == CompressedHeader(content) + Concat(lines[..k])
    && (k < |lines| ==> |r| + |lines[k]| > LIMIT)
  }

  /** Compression changes exactly the results over the limit, to as many of the selected lines as
      fit, brings them under it, and never changes a result twice. */
  lemma {:induction false} CompressedFits(content: string)
    requires |content| < 0x1_0000_0000_0000_0000
    ensures |CompressToolContext(content)| <= LIMIT
    ensures CompressToolContext(content) == content <==> |content| <= LIMIT
    ensures |content| > LIMIT ==> exists k :: IsExcerpt(CompressToolContext(content), content, k)
    ensures CompressToolContext(CompressToolContext(content)) == CompressToolContext(content)
  {
    hide Selected, EndLines;
    UsizeDigits(|content|);
    if |content| > LIMIT {
      var k := FillIsLongest(CompressedHeader(content), EndLines(Selected(content)), LIMIT);
      assert IsExcerpt(CompressToolContext(content), content, k);
    }
  }

  // ---------- stale results ----------

  const RECENT_FULL := 12
  const STALE_EXCERPT := 300
  const STALE_NOTE := "\n…[较早的工具输出已节选；如需完整内容请重新调用工具获取]"

  /** Number of tool messages. */
  function Tools(ms: seq<Message>): nat {
    if ms == [] then 0 else (if ms[0].role == Tool then 1 else 0) + Tools(ms[1..])
  }

  function Shrunk(m: Message): Message {
    if |m.content| > STALE_EXCERPT then m.(content := m.content[..STALE_EXCERPT] + STALE_NOTE) else m
  }

  /** A tool message with at least `RECENT_FULL` newer ones behind it is stale. */
  predicate StaleAt(ms: seq<Message>, i: nat)
    requires i < |ms|
  {
    ms[i].role == Tool && Tools(ms[i + 1..]) >= RECENT_FULL
  }

  function CompressStale(ms: seq<Message>): (r: seq<Message>)
    ensures |r| == |ms|
  {
    seq(|ms|, i requires 0 <= i < |ms| => if StaleAt(ms, i) then Shrunk(ms[i]) else ms[i])
  }

  lemma {:induction false} ToolsAppend(a: seq<Message>, b: seq<Message>)
    ensures Tools(a + b) == Tools(a) + Tools(b)
  {
    if a == [] {
      assert a + b == b;
    } else {
      assert (a + b)[1..] == a[1..] + b;
      ToolsAppend(a[1..], b);
    }
  }

  lemma {:induction false} ToolsSameRoles(a: seq<Message>, b: seq<Message>)
    requires |a| == |b| && forall i :: 0 <= i < |a| ==> a[i].role == b[i].role
    ensures Tools(a) == Tools(b)
  {
    if a != [] {
      forall i | 0 <= i < |a[1..]|
        ensures a[1..][i].role == b[1..][i].role
      {
        assert a[1..][i] == a[i + 1] && b[1..][i] == b[i + 1];
      }
      ToolsSameRoles(a[1..], b[1..]);
    }
  }

  lemma {:induction false} ShrunkTwice(m: Message)
    ensures Shrunk(Shrunk(m)) == Shrunk(m)
  {
    if |m.content| > STALE_EXCERPT {
      assert (m.content[..STALE_EXCERPT] + STALE_NOTE)[..STALE_EXCERPT] == m.content[..STALE_EXCERPT];
    }
  }

  /** Compressing after every turn or once over the whole history is the same: what was
      shortened before is shortened to the same text, and nothing comes back. */
  lemma {:induction false} CompressGrow(a: seq<Message>, b: seq<Message>)
    ensures CompressStale(CompressStale(a) + b) == CompressStale(a + b)
  {
    var ca := CompressStale(a);
    forall i | 0 <= i < |a + b|
      ensures CompressStale(ca + b)[i] == CompressStale(a + b)[i]
    {
      StaleGrow(a, b, i);
      if i < |a| {
        ShrunkTwice(a[i]);
      }
    }
  }

  lemma {:induction false} StaleGrow(a: seq<Message>, b: seq<Message>, i: nat)
    requires i < |a| + |b|
    ensures var ca := CompressStale(a); StaleAt(ca + b, i) == StaleAt(a + b, i)
    ensures i < |a| && StaleAt(a, i) ==> StaleAt(a + b, i)
  {
    var ca := CompressStale(a);
    ToolsSameRoles((ca + b)[i + 1..], (a + b)[i + 1..]);
    if i < |a| {
      assert (a + b)[i + 1..] == a[i + 1..] + b;
      ToolsAppend(a[i + 1..], b);
    }
  }

  /** Positions of tool messages, in order. */
  predicate ToolIndices(ms: seq<Message>, upto: nat, indices: seq<nat>)
    requires upto <= |ms|
  {
    && (forall k :: 0 <= k < |indices| ==> indices[k] < upto && ms[indices[k]].role == Tool)
    && (forall k, l :: 0 <= k < l < |indices| ==> indices[k] < indices[l])
    && (forall k :: 0 <= k < |indices| ==> Tools(ms[..indices[k]]) == k)
    && |indices| == Tools(ms[..upto])
  }

  lemma {:induction false} ToolsStep(ms: seq<Message>, i: nat)
    requires i < |ms|
    ensures Tools(ms[..i + 1]) == Tools(ms[..i]) + if ms[i].role == Tool then 1 else 0
    ensures Tools(ms) == Tools(ms[..i + 1]) + Tools(ms[i + 1..])
  {
    assert ms[..i + 1] == ms[..i] + [ms[i]];
    ToolsAppend(ms[..i], [ms[i]]);
    assert ms == ms[..i + 1] + ms[i + 1..];
    ToolsAppend(ms[..i + 1], ms[i + 1..]);
  }

  lemma {:induction false} ToolsMonotone(ms: seq<Message>, i: nat, j: nat)
    requires i <= j <= |ms|
    ensures Tools(ms[..i]) <= Tools(ms[..j])
  {
    assert ms[..j] == ms[..i] + ms[i..j];
    ToolsAppend(ms[..i], ms[i..j]);
  }

  method CollectToolIndices(ms: seq<Message>) returns (indices: seq<nat>)
    ensures ToolIndices(ms, |ms|, indices)
  {
    indices := [];
    for i := 0 to |ms|
      invariant ToolIndices(ms, i, indices)
    {
      ToolsStep(ms, i);
      if ms[i].role == Tool {
        indices := indices + [i];
      }
    }
  }

  /** The stale messages are the first of the tool messages: all but the newest twelve. */
  lemma {:induction false} StaleIsEarly(ms: seq<Message>, indices: seq<nat>, i: nat)
    requires ToolIndices(ms, |ms|, indices) && i < |ms|
    ensures StaleAt(ms, i) <==> exists k :: 0 <= k < |indices| - RECENT_FULL && indices[k] == i
  {
    assert ms[..|ms|] == ms;
    ToolsStep(ms, i);
    if StaleAt(ms, i) {
      var k := Tools(ms[..i]);
      assert k < |indices| - RECENT_FULL;
      if indices[k] < i {
        ToolsStep(ms, indices[k]);
        ToolsMonotone(ms, indices[k] + 1, i);
      } else if indices[k] > i {
        ToolsMonotone(ms, i + 1, indices[k]);
      }
      assert indices[k] == i;
    }
  }

  /** The in-place loop over the stale messages. */
  method CompressStaleToolResults(messages: array<Message>)
    modifies messages
    ensures messages[..] == CompressStale(old(messages[..]))
  {
    ghost var was := messages[..];
    var indices := CollectToolIndices(messages[..]);
    var stale := if |indices| > RECENT_FULL then |indices| - RECENT_FULL else 0;
    for k := 0 to stale
      invariant forall j :: 0 <= j < k ==> messages[indices[j]] == Shrunk(was[indices[j]])
      invariant forall i :: 0 <= i < messages.Length && (forall j :: 0 <= j < k ==> indices[j] != i) ==>
                  messages[i] == was[i]
    {
      var at := indices[k];
      var message := messages[at];
      if |message.content| > STALE_EXCERPT {
        messages[at] := message.(content := message.content[..STALE_EXCERPT] + STALE_NOTE);
      }
    }
    forall i | 0 <= i < messages.Length
      ensures messages[i] == CompressStale(was)[i]
    {
      StaleIsEarly(was, indices, i);
    }
  }

  // ---------- what stays ----------

  /** Everything the adjacency contract looks at. */
  predicate SameShape(a: seq<Message>, b: seq<Message>) {
    && |a| == |b|
    && forall i :: 0 <= i < |a| ==>
         a[i].role == b[i].role && a[i].calls == b[i].calls && a[i].callId == b[i].callId
  }

  lemma {:induction false} ShapeKeepsValid(a: seq<Message>, b: seq<Message>)
    requires SameShape(a, b) && Valid(a)
    ensures Valid(b)
  {
    forall i | 0 <= i < |b| && Calling(b[i])
      ensures AnsweredAt(b, i)
    {
      assert Calling(a[i]) && AnsweredAt(a, i);
      forall j | 0 <= j < |b[i].calls|
        ensures Answers(b[i + 1 + j], b[i].calls[j])
      {
        assert Answers(a[i + 1 + j], a[i].calls[j]);
      }
    }
    forall t | 0 <= t < |b| && b[t].role == Tool
      ensures OwnedAt(b, t)
    {
      assert a[t].role == Tool && OwnedAt(a, t);
      var i :| 0 <= i < t && Calling(a[i]) && t <= i + |a[i].calls|;
      assert Calling(b[i]);
    }
  }

  /** Only the content of stale tool messages changes, to its first three hundred characters and a
      note if it is longer; the newest twelve keep theirs. */
  lemma {:induction false} CompressKeepsShape(ms: seq<Message>)
    ensures SameShape(ms, CompressStale(ms))
    ensures forall i :: 0 <= i < |ms| && !StaleAt(ms, i) ==> CompressStale(ms)[i] == ms[i]
    ensures forall i :: 0 <= i < |ms| && StaleAt(ms, i) ==>
              var was, now := ms[i].content, CompressStale(ms)[i].content;
              && (|was| <= 300 ==> now == was)
              && (|was| > 300 ==> |now| == 300 + |STALE_NOTE| && now[..300] == was[..300] && now[300..] == STALE_NOTE)
    ensures Valid(ms) ==> Valid(CompressStale(ms))
  {
    if Valid(ms) {
      ShapeKeepsValid(ms, CompressStale(ms));
    }
  }

  // ---------- error text ----------

  const ERROR_MARK := "[error]"

  predicate ErrorText(m: Message) {
    m.role == Assistant && m.calls == [] && ERROR_MARK <= TrimStart(m.content)
  }

  /** An error text is an answer without calls that starts, behind white space, with the mark. */
  lemma {:induction false} ErrorTextIff(m: Message, gap: string, text: string)
    requires m.content == gap + text && (forall c :: c in gap ==> IsWhite(c)) && (text == "" || !IsWhite(text[0]))
    ensures ErrorText(m) <==> m.role == Assistant && m.calls == [] && "[error]" <= text
  {
    hide IsWhite;
    GapIsPassed(gap, text);
  }

  lemma {:induction false} GapIsPassed(gap: string, text: string)
    requires (forall c :: c in gap ==> IsWhite(c)) && (text == "" || !IsWhite(text[0]))
    ensures TrimStart(gap + text) == text
  {
    hide IsWhite;
    if gap == "" {
      assert gap + text == text;
    } else {
      assert gap[0] in gap && (gap + text)[1..] == gap[1..] + text && (gap + text)[0] == gap[0];
      GapIsPassed(gap[1..], text);
    }
  }

  function StripErrorText(ms: seq<Message>): (r: seq<Message>)
    ensures forall m :: m in r <==> m in ms && !ErrorText(m)
  {
    if ms == [] then []
    else IfKept(ms[0]) + StripErrorText(ms[1..])
  }

  function IfKept(m: Message): (r: seq<Message>)
    ensures r == if ErrorText(m) then [] else [m]
  {
    if ErrorText(m) then [] else [m]
  }

  lemma {:induction false} StripAppend(a: seq<Message>, b: seq<Message>)
    ensures StripErrorText(a + b) == StripErrorText(a) + StripErrorText(b)
  {
    if a == [] {
      assert a + b == b;
    } else {
      assert (a + b)[1..] == a[1..] + b;
      StripAppend(a[1..], b);
      Assoc(IfKept(a[0]), StripErrorText(a[1..]), StripErrorText(b));
    }
  }

  lemma {:induction false} StripNothing(ms: seq<Message>)
    requires forall m :: m in ms ==> !ErrorText(m)
    ensures StripErrorText(ms) == ms
  {
    if ms != [] {
      assert ms[0] in ms;
      StripNothing(ms[1..]);
    }
  }

  /** The positions of all messages but the error texts, in order. */
  ghost predicate KeptAt(ms: seq<Message>, kept: seq<nat>) {
    && (forall k :: 0 <= k < |kept| ==> kept[k] < |ms| && !ErrorText(ms[kept[k]]))
    && (forall k, l :: 0 <= k < l < |kept| ==> kept[k] < kept[l])
    && (forall i :: 0 <= i < |ms| && !ErrorText(ms[i]) ==> i in kept)
  }

  lemma {:induction false} KeptOneMore(ms: seq<Message>, kept: seq<nat>, m: Message)
    requires KeptAt(ms, kept)
    ensures KeptAt(ms + [m], if ErrorText(m) then kept else kept + [|ms|])
  {
    hide ErrorText;
    var all, more := ms + [m], if ErrorText(m) then kept else kept + [|ms|];
    forall i | 0 <= i < |all| && !ErrorText(all[i])
      ensures i in more
    {
      if i < |ms| {
        assert ms[i] == all[i] && i in kept;
      }
    }
  }

  lemma {:induction false} StripOneMore(ms: seq<Message>, kept: seq<nat>, m: Message, more: seq<nat>)
    requires KeptAt(ms, kept) && |StripErrorText(ms)| == |kept|
    requires forall k :: 0 <= k < |kept| ==> StripErrorText(ms)[k] == ms[kept[k]]
    requires more == if ErrorText(m) then kept else kept + [|ms|]
    ensures KeptAt(ms + [m], more) && |StripErrorText(ms + [m])| == |more|
    ensures forall k :: 0 <= k < |more| ==> StripErrorText(ms + [m])[k] == (ms + [m])[more[k]]
  {
    KeptOneMore(ms, kept, m);
    StripAppend(ms, [m]);
    StripOne(m);
    assert forall k :: 0 <= k < |kept| ==> kept[k] < |ms|;
    hide KeptAt, StripErrorText, ErrorText;
    assert StripErrorText(ms + [m]) == StripErrorText(ms) + IfKept(m);
    forall k | 0 <= k < |more|
      ensures StripErrorText(ms + [m])[k] == (ms + [m])[more[k]]
    {
      if k < |kept| {
        assert more[k] == kept[k] < |ms|;
      }
    }
  }

  lemma {:induction false} StripOne(m: Message)
    ensures StripErrorText([m]) == IfKept(m)
  {
    assert [m][1..] == [] && StripErrorText([]) == [];
    assert IfKept(m) + [] == IfKept(m);
  }

  /** What stays are the other messages, each once and in order. */
  lemma {:induction false} StripIsFilter(ms: seq<Message>) returns (kept: seq<nat>)
    ensures KeptAt(ms, kept) && |StripErrorText(ms)| == |kept|
    ensures forall k :: 0 <= k < |kept| ==> StripErrorText(ms)[k] == ms[kept[k]]
  {
    if ms == [] {
      kept := [];
    } else {
      hide StripErrorText, ErrorText;
      var n := |ms| - 1;
      assert ms == ms[..n] + [ms[n]];
      var before := StripIsFilter(ms[..n]);
      kept := if ErrorText(ms[n]) then before else before + [n];
      StripOneMore(ms[..n], before, ms[n], kept);
    }
  }

  /** Removing text-only messages breaks no pairing. */
  lemma {:induction false} StripKeepsValid(ms: seq<Message>)
    requires ValidTurns(ms)
    ensures ValidTurns(StripErrorText(ms))
    decreases |ms|
  {
    hide StripErrorText, TrimStart;
    if ms == [] {
      StripNothing(ms);
    } else {
      var k := TurnLength(ms);
      var rest := StripErrorText(ms[k..]);
      StripKeepsValid(ms[k..]);
      StripFirstTurn(ms);
      if Calling(ms[0]) {
        TurnInFront(ms[..k], rest);
      } else if ErrorText(ms[0]) {
        assert [] + rest == rest;
      } else {
        PlainInFront(ms[0], rest);
        assert ms[..k] == [ms[0]];
      }
    }
  }

  lemma {:induction false} StripFirstTurn(ms: seq<Message>)
    requires ms != [] && ValidTurns(ms)
    ensures var k := TurnLength(ms);
            k <= |ms|
            && StripErrorText(ms) == (if ErrorText(ms[0]) then [] else ms[..k]) + StripErrorText(ms[k..])
  {
    var k := TurnLength(ms);
    assert ms == ms[..k] + ms[k..];
    StripAppend(ms[..k], ms[k..]);
    if ErrorText(ms[0]) {
      assert ms[..1] == [ms[0]];
    } else {
      assert TurnOk(ms);
      ToolsInTurn(ms);
      StripNothing(ms[..k]);
    }
  }

  lemma {:induction false} PlainInFront(m: Message, rest: seq<Message>)
    requires m.role != Tool && !Calling(m) && ValidTurns(rest)
    ensures ValidTurns([m] + rest)
  {
    assert ([m] + rest)[1..] == rest;
  }

  lemma {:induction false} TurnInFront(turn: seq<Message>, rest: seq<Message>)
    requires turn != [] && Calling(turn[0]) && |turn| == 1 + |turn[0].calls|
    requires AnswerRun(turn[0].calls, turn[1..]) && ValidTurns(rest)
    ensures ValidTurns(turn + rest)
  {
    var ms := turn + rest;
    assert ms[1..|turn|] == turn[1..] && ms[|turn|..] == rest;
  }
}
