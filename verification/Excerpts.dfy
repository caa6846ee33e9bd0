/** Which lines of a long tool output survive, and what a summary says of the messages it replaces. */
module Excerpts {
  import opened Text
  import opened Lines
  import opened Transcript
  import opened Stale
  import opened Budget

  // ---------- tool output ----------

  /** Number of marked lines among the first `i`. */
  function MarkedBefore(lines: seq<string>, i: nat): nat
    requires i <= |lines|
  {
    if i == 0 then 0 else MarkedBefore(lines, i - 1) + if Marked(lines[i - 1]) then 1 else 0
  }

  /** The first 36 lines, the last 28, and the first 24 that look like an error or a warning. */
  predicate Survives(lines: seq<string>, i: nat)
    requires i < |lines|
  {
    i < 36 || i + 28 >= |lines| || (Marked(lines[i]) && MarkedBefore(lines, i) < 24)
  }

  lemma {:induction false} DedupHas(lines: seq<string>)
    ensures forall l :: l in Dedup(lines) <==> l in lines
    ensures lines != [] ==>
              Dedup(lines) != [] && Dedup(lines)[0] == lines[0] && Dedup(lines)[|Dedup(lines)| - 1] == lines[|lines| - 1]
    ensures forall k :: 0 < k < |Dedup(lines)| ==> Dedup(lines)[k - 1] != Dedup(lines)[k]
  {
    if |lines| >= 2 {
      DedupHas(lines[1..]);
      assert forall l :: l in lines <==> l == lines[0] || l in lines[1..];
    }
  }

  lemma {:induction false} MarkedShift(lines: seq<string>, i: nat)
    requires 0 < i <= |lines|
    ensures MarkedBefore(lines, i) == (if Marked(lines[0]) then 1 else 0) + MarkedBefore(lines[1..], i - 1)
  {
    hide Marked;
    if i > 1 {
      MarkedShift(lines, i - 1);
      assert lines[1..][i - 2] == lines[i - 1];
    }
  }

  /** The first `k` marked lines, by position. */
  lemma {:induction false} MarkedHas(lines: seq<string>, k: nat, l: string)
    ensures l in Take(MarkedOnly(lines), k) <==>
            exists i :: 0 <= i < |lines| && lines[i] == l && Marked(l) && MarkedBefore(lines, i) < k
    decreases |lines|
  {
    hide Marked;
    if lines != [] {
      var rest := lines[1..];
      assert forall i :: 0 <= i < |rest| ==> rest[i] == lines[i + 1];
      forall i | 0 < i < |lines|
        ensures MarkedBefore(lines, i) == (if Marked(lines[0]) then 1 else 0) + MarkedBefore(rest, i - 1)
      {
        MarkedShift(lines, i);
      }
      if Marked(lines[0]) {
        if k > 0 {
          MarkedHas(rest, k - 1, l);
          assert Take(MarkedOnly(lines), k) == [lines[0]] + Take(MarkedOnly(rest), k - 1);
          MarkedAt(lines, k, k - 1, l);
        }
      } else {
        MarkedHas(rest, k, l);
        assert MarkedOnly(lines) == MarkedOnly(rest);
        MarkedAt(lines, k, k, l);
      }
    }
  }

  lemma {:induction false} MarkedAt(lines: seq<string>, k: nat, k': nat, l: string)
    requires lines != [] && k == k' + if Marked(lines[0]) then 1 else 0
    ensures (exists i :: 0 <= i < |lines| && lines[i] == l && Marked(l) && MarkedBefore(lines, i) < k)
       <==> (Marked(lines[0]) && l == lines[0])
            || exists i :: 0 <= i < |lines[1..]| && lines[1..][i] == l && Marked(l) && MarkedBefore(lines[1..], i) < k'
  {
    hide Marked;
    var rest := lines[1..];
    if i :| 0 <= i < |lines| && lines[i] == l && Marked(l) && MarkedBefore(lines, i) < k {
      if i > 0 {
        MarkedShift(lines, i);
        assert rest[i - 1] == l;
      }
    }
    if i :| 0 <= i < |rest| && rest[i] == l && Marked(l) && MarkedBefore(rest, i) < k' {
      MarkedShift(lines, i + 1);
      assert lines[i + 1] == l;
    }
    if Marked(lines[0]) && l == lines[0] {
      assert lines[0] == l && MarkedBefore(lines, 0) < k;
    }
  }

  /** `l` is one of the surviving lines. */
  ghost predicate SurvivingLine(lines: seq<string>, l: string) {
    exists i :: 0 <= i < |lines| && Survives(lines, i) && lines[i] == l
  }

  lemma {:induction false} SurvivingIs(lines: seq<string>, l: string)
    ensures SurvivingLine(lines, l) <==>
              || (exists i :: 0 <= i < |lines| && i < 36 && lines[i] == l)
              || (exists i :: 0 <= i < |lines| && i + 28 >= |lines| && lines[i] == l)
              || (exists i :: 0 <= i < |lines| && lines[i] == l && Marked(l) && MarkedBefore(lines, i) < 24)
  {
    hide Marked, MarkedBefore;
  }

  lemma {:induction false} SelectedHas(content: string, l: string)
    ensures l in Selected(content) <==> SurvivingLine(LinesOf(content), l)
  {
    hide *;
    var lines := LinesOf(content);
    SelectedIs(content);
    DedupHas(Parts(lines));
    PartsHave(lines, l);
    MarkedHas(lines, 24, l);
    Ends(lines);
    SurvivingIs(lines, l);
  }

  function Parts(lines: seq<string>): seq<string> {
    Take(lines, 36) + Take(MarkedOnly(lines), 24) + TakeLast(lines, 28)
  }

  lemma {:induction false} SelectedIs(content: string)
    ensures Selected(content) == Dedup(Parts(LinesOf(content)))
  {
    hide LinesOf, Dedup, MarkedOnly;
  }

  lemma {:induction false} PartsHave(lines: seq<string>, l: string)
    ensures l in Parts(lines) <==> l in Take(lines, 36) || l in Take(MarkedOnly(lines), 24) || l in TakeLast(lines, 28)
    ensures lines != [] ==>
              Parts(lines) != [] && Parts(lines)[0] == lines[0] && Parts(lines)[|Parts(lines)| - 1] == lines[|lines| - 1]
  {
    hide MarkedOnly;
  }

  /** The selected lines are exactly the surviving ones, from the first line to the last, without
      repetitions in a row. */
  lemma {:induction false} SelectedLines(content: string)
    ensures var lines, chosen := LinesOf(content), Selected(content);
            && (forall l :: l in chosen <==> SurvivingLine(lines, l))
            && (forall k :: 0 < k < |chosen| ==> chosen[k - 1] != chosen[k])
            && (lines != [] ==> chosen != [] && chosen[0] == lines[0] && chosen[|chosen| - 1] == lines[|lines| - 1])
  {
    hide *;
    var lines := LinesOf(content);
    forall l
      ensures l in Selected(content) <==> SurvivingLine(lines, l)
    {
      SelectedHas(content, l);
    }
    SelectedIs(content);
    DedupHas(Parts(lines));
    PartsHave(lines, "");
  }

  lemma {:induction false} Ends(lines: seq<string>)
    ensures forall l :: l in Take(lines, 36) <==> exists i :: 0 <= i < |lines| && i < 36 && lines[i] == l
    ensures forall l :: l in TakeLast(lines, 28) <==> exists i :: 0 <= i < |lines| && i + 28 >= |lines| && lines[i] == l
  {
    var c, n := TakeLast(lines, 28), |lines|;
    var from := if n <= 28 then 0 else n - 28;
    assert forall i :: from <= i < n ==> c[i - from] == lines[i];
  }

  // ---------- summaries ----------

  /** Nonempty and without white space. */
  predicate Word(w: string) {
    w != "" && forall c :: c in w ==> !IsWhite(c)
  }

  lemma {:induction false} WordStep(w: string, rest: string)
    requires Word(w)
    ensures (w + rest)[0] == w[0] && (w + rest)[1..] == w[1..] + rest && !IsWhite((w + rest)[0])
    ensures TrimStart(w + rest) == w + rest && WordLength(w + rest) == 1 + WordLength(w[1..] + rest)
    ensures |w| > 1 ==> Word(w[1..])
  {
    hide IsWhite;
    assert w[0] in w && forall c :: c in w[1..] ==> c in w;
    assert (w + rest)[0] == w[0] && (w + rest)[1..] == w[1..] + rest;
  }

  lemma {:induction false} WordEnds(w: string, rest: string)
    requires Word(w) && (rest == "" || IsWhite(rest[0]))
    ensures TrimStart(w + rest) == w + rest && WordLength(w + rest) == |w|
    decreases |w|
  {
    WordStep(w, rest);
    hide IsWhite, TrimStart;
    if |w| > 1 {
      WordEnds(w[1..], rest);
    } else {
      assert w[1..] + rest == rest;
    }
  }

  lemma {:induction false} SpaceIsPassed(s: string)
    ensures Words(" " + s) == Words(s)
  {
    assert (" " + s)[1..] == s;
    assert TrimStart(" " + s) == TrimStart(s);
  }

  predicate AllWords(words: seq<string>) {
    forall w :: w in words ==> Word(w)
  }

  lemma {:induction false} WordsFirst(words: seq<string>)
    requires words != [] && AllWords(words)
    ensures Word(words[0]) && AllWords(words[1..]) && words == [words[0]] + words[1..]
  {
    hide Word;
    assert words[0] in words && forall v :: v in words[1..] ==> v in words;
  }

  /** Words joined by single spaces come apart again. */
  lemma {:induction false} WordsRoundTrip(words: seq<string>)
    requires AllWords(words)
    ensures Words(JoinWords(words)) == words
    decreases |words|
  {
    hide *;
    if words == [] {
      NoWords();
      JoinNothing();
    } else {
      WordsFirst(words);
      WordsRoundTrip(words[1..]);
      var tail := if words[1..] == [] then "" else " " + JoinWords(words[1..]);
      JoinFirst(words, tail);
      TailIsWhite(tail, JoinWords(words[1..]));
      WordEnds(words[0], tail);
      FirstWord(words[0], tail);
      NoWords();
      SpaceIsPassed(JoinWords(words[1..]));
    }
  }

  lemma {:induction false} TailIsWhite(tail: string, rest: string)
    requires tail == "" || tail == " " + rest
    ensures tail == "" || IsWhite(tail[0])
  {
  }

  lemma {:induction false} JoinNothing()
    ensures JoinWords([]) == ""
  {
  }

  lemma {:induction false} NoWords()
    ensures Words("") == []
  {
  }

  lemma {:induction false} JoinFirst(words: seq<string>, tail: string)
    requires words != [] && tail == if words[1..] == [] then "" else " " + JoinWords(words[1..])
    ensures JoinWords(words) == words[0] + tail
  {
    assert words[0] + "" == words[0];
    if |words| > 1 {
      Assoc(words[0], " ", JoinWords(words[1..]));
    }
  }

  lemma {:induction false} FirstWord(w: string, tail: string)
    requires Word(w) && TrimStart(w + tail) == w + tail && WordLength(w + tail) == |w|
    ensures Words(w + tail) == [w] + Words(tail)
  {
    hide TrimStart, WordLength;
    assert (w + tail)[..|w|] == w && (w + tail)[|w|..] == tail;
  }

  /** The line for a message: who spoke, and its words in up to 480 characters. */
  lemma {:induction false} SummaryLineSays(m: Message, words: seq<string>)
    requires AllWords(words) && m.content == JoinWords(words)
    ensures m.role == User ==> SummaryLine(m) == "用户: " + Take(m.content, 480) + "\n"
    ensures m.role == Assistant ==> SummaryLine(m) == "助手: " + Take(m.content, 480) + "\n"
  {
    hide Words, JoinWords, AllWords;
    WordsRoundTrip(words);
    assert "用户" + ": " == "用户: " && "助手" + ": " == "助手: ";
  }

  /** Positions of the messages a summary quotes: user and assistant messages that are not blank,
      newest first. */
  ghost predicate Quoted(older: seq<Message>, at: seq<nat>) {
    && (forall k :: 0 <= k < |at| ==> at[k] < |older|)
    && (forall k, l :: 0 <= k < l < |at| ==> at[k] > at[l])
    && (forall i :: 0 <= i < |older| ==>
          (i in at <==> (older[i].role == User || older[i].role == Assistant) && Trim(older[i].content) != ""))
  }

  lemma {:induction false} QuotedMore(older: seq<Message>, at: seq<nat>, m: Message)
    requires Quoted(older, at)
    ensures Quoted(older + [m], if Spoken(m) then [|older|] + at else at)
  {
    hide Trim;
    var all, more := older + [m], if Spoken(m) then [|older|] + at else at;
    assert |older| !in at;
    forall i | 0 <= i < |all|
      ensures i in more <==> (all[i].role == User || all[i].role == Assistant) && Trim(all[i].content) != ""
    {
      assert i < |older| ==> all[i] == older[i];
    }
  }

  lemma {:induction false} LinesMore(older: seq<Message>, at: seq<nat>, m: Message, more: seq<nat>)
    requires Quoted(older, at) && |SpokenLines(older)| == |at|
    requires forall k :: 0 <= k < |at| ==> SpokenLines(older)[k] == SummaryLine(older[at[k]])
    requires more == if Spoken(m) then [|older|] + at else at
    ensures Quoted(older + [m], more) && |SpokenLines(older + [m])| == |more|
    ensures forall k :: 0 <= k < |more| ==> SpokenLines(older + [m])[k] == SummaryLine((older + [m])[more[k]])
  {
    QuotedMore(older, at, m);
    LastSpoken(older, m);
    assert forall k :: 0 <= k < |at| ==> at[k] < |older|;
    hide *;
    forall k | 0 <= k < |more|
      ensures SpokenLines(older + [m])[k] == SummaryLine((older + [m])[more[k]])
    {
      if !Spoken(m) {
        assert more[k] == at[k] < |older|;
      } else if k > 0 {
        assert more[k] == at[k - 1] < |older|;
      }
    }
  }

  lemma {:induction false} LastSpoken(older: seq<Message>, m: Message)
    ensures SpokenLines(older + [m]) == (if Spoken(m) then [SummaryLine(m)] else []) + SpokenLines(older)
  {
    hide Spoken, SummaryLine;
    assert (older + [m])[..|older|] == older;
  }

  lemma {:induction false} NothingSpoken()
    ensures Quoted([], []) && SpokenLines([]) == []
  {
  }

  lemma {:induction false} LastMessage(older: seq<Message>)
    requires older != []
    ensures older == older[..|older| - 1] + [older[|older| - 1]]
  {
  }

  /** A summary has one line for each of them, in this order. */
  lemma {:induction false} SpokenLinesAre(older: seq<Message>) returns (at: seq<nat>)
    ensures Quoted(older, at) && |SpokenLines(older)| == |at|
    ensures forall k :: 0 <= k < |at| ==> SpokenLines(older)[k] == SummaryLine(older[at[k]])
    decreases |older|
  {
    hide Spoken, SummaryLine, SpokenLines, Trim;
    if older == [] {
      NothingSpoken();
      at := [];
    } else {
      var n := |older| - 1;
      var init, m := older[..n], older[n];
      var before := SpokenLinesAre(init);
      at := if Spoken(m) then [n] + before else before;
      LinesMore(init, before, m, at);
      LastMessage(older);
    }
  }

  // ---------- what replaces the older messages ----------

  /** The positions of the system messages, in order. */
  ghost predicate SystemsAt(ms: seq<Message>, at: seq<nat>) {
    && (forall k :: 0 <= k < |at| ==> at[k] < |ms| && ms[at[k]].role == System)
    && (forall k, l :: 0 <= k < l < |at| ==> at[k] < at[l])
    && (forall i :: 0 <= i < |ms| && ms[i].role == System ==> i in at)
  }

  ghost predicate TakenAt(ms: seq<Message>, at: seq<nat>, taken: seq<Message>) {
    |taken| == |at| && forall k :: 0 <= k < |at| ==> at[k] < |ms| && taken[k] == ms[at[k]]
  }

  lemma {:induction false} SystemsMore(ms: seq<Message>, at: seq<nat>, m: Message)
    requires SystemsAt(ms, at)
    ensures m.role == System ==> SystemsAt(ms + [m], at + [|ms|])
    ensures m.role != System ==> SystemsAt(ms + [m], at)
  {
    var all, more := ms + [m], at + [|ms|];
    forall i | 0 <= i < |all| && all[i].role == System
      ensures i in more && (m.role != System ==> i in at)
    {
      assert i < |ms| ==> all[i] == ms[i] && i in at;
    }
    assert forall k :: 0 <= k < |at| ==> all[at[k]] == ms[at[k]] && more[k] == at[k];
  }

  lemma {:induction false} TakenMore(ms: seq<Message>, at: seq<nat>, taken: seq<Message>, m: Message)
    requires TakenAt(ms, at, taken)
    ensures TakenAt(ms + [m], at + [|ms|], taken + [m]) && TakenAt(ms + [m], at, taken)
  {
    var all, more, now := ms + [m], at + [|ms|], taken + [m];
    forall k | 0 <= k < |more|
      ensures more[k] < |all| && now[k] == all[more[k]]
    {
      assert k < |at| ==> more[k] == at[k] && now[k] == taken[k] && all[at[k]] == ms[at[k]];
    }
    assert forall k :: 0 <= k < |at| ==> all[at[k]] == ms[at[k]];
  }

  lemma {:induction false} SystemsAre(ms: seq<Message>) returns (at: seq<nat>)
    ensures SystemsAt(ms, at) && TakenAt(ms, at, Systems(ms))
    decreases |ms|
  {
    hide *;
    if ms == [] {
      at := [];
      NoSystems();
    } else {
      var n := |ms| - 1;
      var init, m := ms[..n], ms[n];
      var before := SystemsAre(init);
      SystemsMore(init, before, m);
      TakenMore(init, before, Systems(init), m);
      at := if m.role == System then before + [n] else before;
      LastMessage(ms);
      SystemsAppend(init, [m]);
      OneSystem(m);
      assert Systems(init) + [] == Systems(init);
    }
  }

  lemma {:induction false} NoSystems()
    ensures SystemsAt([], []) && TakenAt([], [], Systems([]))
  {
  }

  lemma {:induction false} OneSystem(m: Message)
    ensures Systems([m]) == if m.role == System then [m] else []
  {
    assert [m][1..] == [] && Systems([]) == [];
  }

  /** What replaces older messages: all their system messages in order, and one note that says how
      many others are gone and quotes as many of them as fit, the newest first. */
  lemma {:induction false} CondensedSays(older: seq<Message>) returns (at: seq<nat>, k: nat)
    requires older != []
    ensures SystemsAt(older, at) && |Condensed(older)| == |at| + 1 && TakenAt(older, at, Condensed(older)[..|at|])
    ensures var note, lines := Condensed(older)[|at|], SpokenLines(older[1..]);
            && note.role == System && k <= |lines|
            && note.content == "[较早会话已按上下文预算压缩，共省略 " + Decimal(|older| - |at|) + " 条消息]\n" + Concat(lines[..k])
            && (k < |lines| ==> |note.content| + |lines[k]| > 4_000)
  {
    hide SpokenLines, SystemsAt, Decimal;
    at := SystemsAre(older);
    k := FillIsLongest(SummaryHeader(|older| - |at|), SpokenLines(older[1..]), SUMMARY_LIMIT);
    assert Condensed(older)[..|at|] == Systems(older);
  }
}
