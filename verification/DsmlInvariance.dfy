/** The filter's output does not depend on how a safe stream is cut into chunks. */
module DsmlInvariance {
  import opened Text
  import opened DsmlMarkers
  import opened Dsml
  import opened DsmlStreaming
  import opened DsmlSafety
  import opened DsmlChains

  // ---------- one turn ----------

  /** After a turn the remaining input means what it meant, minus what was output, and is still safe. */
  ghost predicate TurnKeeps(st: State, pending: string, v: string, st': State, pending': string, out: seq<Item>)
  {
    && Safe(st', pending' + v)
    && Meaning(st, pending + v) == Events(out) + Meaning(st', pending' + v)
  }

  /** Meaning and safety of a state, spelled out. */
  lemma {:induction false} StateMeaning(st: State, v: string)
    ensures st.capture.Some? ==>
              var w := st.capture.value + v;
              && Meaning(st, v) == BlockMeaning(Normalize(w), st.counter)
              && (Safe(st, v) <==> Sheltered(true, w) && SafeRest(Normalize(w)))
    ensures st.capture.None? ==>
              var w := st.buf + v;
              && Meaning(st, v) == TextMeaning(Normalize(w), st.counter)
              && (Safe(st, v) <==> Sheltered(false, w) && SafeText(Normalize(w)))
  {
    hide Normalize, BlockMeaning, TextMeaning, SafeRest, SafeText, Sheltered;
  }

  lemma {:induction false} ConsumedIsDrained(m: string, counter: nat)
    ensures var d := Drain(m, counter);
            AllDrained(Consumed(m, counter)) && Drain(Consumed(m, counter), counter) == Drained(d.calls, "", d.counter)
  {
    hide *;
    var done, d := Consumed(m, counter), Drain(m, counter);
    assert done + "" == done;
    DrainResume(m, "", counter);
    DrainOfNothing(d);
    RestWithoutCounter(done, counter);
    AllDrainedIs(done);
  }

  lemma {:induction false} DrainOfNothing(d: Drained)
    ensures Prepend(d.calls, Drain("", d.counter)) == Drained(d.calls, "", d.counter)
  {
    hide Find;
    NothingDrained("", d.counter);
    assert d.calls + [] == d.calls;
  }

  lemma {:induction false} AllDrainedIs(done: string)
    ensures AllDrained(done) <==> Undrained(done) == ""
  {
    hide Undrained;
  }

  /** New text inside a block: the invokes it completes, then the meaning of what is left. */
  lemma {:induction false} BlockArrives(held: string, counter: nat, v: string)
    requires Sheltered(true, held + v) && SafeRest(Normalize(held + v))
    ensures var d := Drain(Normalize(held), counter);
            && Clean(d.rest) && Sheltered(true, d.rest + v) && SafeRest(Normalize(d.rest + v))
            && BlockMeaning(Normalize(held + v), counter)
            == CallEvents(d.calls) + BlockMeaning(Normalize(d.rest + v), d.counter)
  {
    hide *;
    var cap := Normalize(held);
    NormalizeClean(held);
    NormalizeGrow(held, v);
    ShelterNormalized(true, held, v);
    var d, done := Drain(cap, counter), Consumed(cap, counter);
    DrainedIsPrefix(cap, counter, v);
    ConsumedSplit(cap, counter);
    ConsumedIsDrained(cap, counter);
    SafeChained(done, Normalize(d.rest + v));
    ChainedMeaning(done, Normalize(d.rest + v), counter);
    CleanRest(cap, counter);
    ShelterDrained(done, d.rest, v);
  }

  /** Behind drained text the block is still open, so what was sheltered is sheltered. */
  lemma {:induction false} ShelterDrained(done: string, rest: string, v: string)
    requires Clean(done + rest) && AllDrained(done) && Chained(done)
    requires Sheltered(true, done + rest + v)
    ensures Sheltered(true, rest + v)
  {
    hide *;
    AllDrainedEnds(done);
    if done == [] {
      assert done + rest + v == rest + v;
    } else {
      var a := InvokeSplit(done);
      ShelterInvokes(a, rest, v);
    }
  }

  lemma {:induction false} InvokeSplit(done: string) returns (a: string)
    requires EndsInvoke(done) && done != []
    ensures done == a + INVOKE_CLOSE
  {
    a := done[..|done| - |INVOKE_CLOSE|];
  }

  lemma {:induction false} ShelterInvokes(a: string, rest: string, v: string)
    requires Clean(a + INVOKE_CLOSE + rest) && AllDrained(a + INVOKE_CLOSE) && Chained(a + INVOKE_CLOSE)
    requires Sheltered(true, a + INVOKE_CLOSE + rest + v)
    ensures Sheltered(true, rest + v)
  {
    hide *;
    var done := a + INVOKE_CLOSE;
    CleanUpTo(a, INVOKE_CLOSE, rest);
    Assoc(done, rest, v);
    forall i | 0 <= i < |rest + v| && (rest + v)[i] == '<'
      ensures DropsAt(done, rest + v, i, true, true)
    {
      DrainedDropsAt(a, done, rest + v, i);
    }
    ShelterDrop(done, rest + v, true, true);
  }

  lemma {:induction false} DrainedDropsAt(a: string, done: string, rest: string, i: nat)
    requires i <= |rest| && done == a + INVOKE_CLOSE && Clean(a + INVOKE_CLOSE)
    requires AllDrained(done) && Chained(done)
    ensures DropsAt(done, rest, i, true, true)
  {
    hide Normalize, InBlock, AllDrained, Chained;
    CutMarker(a, INVOKE_CLOSE, rest[..i]);
    ChainedStaysOpen(done, Normalize(rest[..i]));
  }

  lemma {:induction false} BlockTurnKeeps(st: State, b: string, v: string)
    requires WellFormed(st) && st.capture.Some? && Safe(st, b + v)
    ensures var t := BlockTurn(st, b);
            TurnKeeps(st, b, v, t.st, if t.Again? then t.pending else "", t.out) && (t.Done? ==> Quiescent(t.st))
  {
    hide Normalize, Drain, Find, Meaning, Safe, BlockMeaning, TextMeaning, SafeRest, SafeText, Sheltered;
    hide Events, Calls, CallEvents, Clean, InvokeEnd, HoldOpen;
    var held := st.capture.value + b;
    var d := Drain(Normalize(held), st.counter);
    Assoc(st.capture.value, b, v);
    StateMeaning(st, b + v);
    BlockArrives(held, st.counter, v);
    EventsCalls(d.calls);
    var t := BlockTurn(st, b);
    if t.Done? {
      assert "" + v == v;
      StateMeaning(t.st, v);
    } else {
      CloseTurnKeeps(d.rest, v, Find(d.rest, CLOSE), d.counter);
      assert t.st.buf + (t.pending + v) == t.pending + v;
      StateMeaning(t.st, t.pending + v);
    }
  }

  /** The closing tag arrives: the block's remaining text holds no further invoke. */
  lemma {:induction false} CloseTurnKeeps(rest: string, v: string, pos: int, counter: nat)
    requires Clean(rest) && InvokeEnd(rest) == -1 && pos == Find(rest, CLOSE) != -1
    requires Sheltered(true, rest + v) && SafeRest(Normalize(rest + v))
    ensures var tail := rest[pos + |CLOSE|..];
            && BlockMeaning(Normalize(rest + v), counter) == TextMeaning(Normalize(tail + v), counter)
            && Sheltered(false, tail + v) && SafeText(Normalize(tail + v))
  {
    hide Sheltered, SafeRest, SafeText, Normalize;
    IncompletePrefix(rest, pos);
    AroundAt(rest, CLOSE, pos);
    CloseTurnPieces(rest[..pos], rest[pos + |CLOSE|..], v, counter);
    ShelterPast(rest[..pos], rest[pos + |CLOSE|..], v, true);
  }

  lemma {:induction false} CloseTurnPieces(a: string, tail: string, v: string, counter: nat)
    requires Clean(a + CLOSE + tail) && InvokeEnd(a) == -1 && Find(a + CLOSE + tail, CLOSE) == |a|
    requires SafeRest(Normalize(a + CLOSE + tail + v))
    ensures BlockMeaning(Normalize(a + CLOSE + tail + v), counter) == TextMeaning(Normalize(tail + v), counter)
    ensures SafeText(Normalize(tail + v))
  {
    assert CLOSE != [];
    hide *;
    var n := Normalize(tail + v);
    NothingDrained(a, counter);
    SuffixAfter(a, CLOSE, tail, v);
    FirstStays(a, CLOSE, tail, n);
    MeaningOfClosedBlock(a + CLOSE + n, counter, |a|);
    SafeBehindClose(a + CLOSE + n, |a|);
    NoCallEvents(TextMeaning(n, counter));
  }

  lemma {:induction false} SafeBehindClose(m: string, q: int)
    requires SafeRest(m) && q == Find(m, CLOSE) != -1
    ensures SafeText(m[q + |CLOSE|..])
  {
    hide SafeText, Occurs, Undrained;
  }

  /** The opening tag arrives. */
  lemma {:induction false} OpenTurnKeeps(s: string, v: string, pos: int, counter: nat)
    requires Clean(s) && pos == Find(s, OPEN) != -1
    requires Sheltered(false, s + v) && SafeText(Normalize(s + v))
    ensures var tail := s[pos + |OPEN|..];
            && TextMeaning(Normalize(s + v), counter) == Chars(s[..pos]) + BlockMeaning(Normalize(tail + v), counter)
            && Sheltered(true, tail + v) && SafeRest(Normalize(tail + v))
  {
    hide Normalize, Find, TextMeaning, BlockMeaning, Chars, SafeText, SafeRest, Sheltered;
    var a, tail := s[..pos], s[pos + |OPEN|..];
    AroundAt(s, OPEN, pos);
    SuffixAfter(a, OPEN, tail, v);
    FirstStays(a, OPEN, tail, Normalize(tail + v));
    MeaningOfOpenedText(Normalize(s + v), counter, pos);
    SafeBehindOpen(Normalize(s + v), pos);
    ShelterPast(a, tail, v, false);
  }

  lemma {:induction false} SafeBehindOpen(n: string, p: int)
    requires SafeText(n) && p == Find(n, OPEN) != -1
    ensures SafeRest(n[p + |OPEN|..])
  {
    hide SafeRest;
  }

  /** No opening tag yet: show everything that cannot be the start of one. */
  lemma {:induction false} ShowTurnKeeps(s: string, v: string, counter: nat)
    requires Clean(s) && Find(s, OPEN) == -1
    requires Sheltered(false, s + v) && SafeText(Normalize(s + v))
    ensures var e, h := s[..|s| - HoldOpen(s)], s[|s| - HoldOpen(s)..];
            && TextMeaning(Normalize(s + v), counter) == Chars(e) + TextMeaning(Normalize(h + v), counter)
            && Sheltered(false, h + v) && SafeText(Normalize(h + v))
            && Clean(h) && HoldOpen(h) == |h| && Find(h, OPEN) == -1
  {
    var e, h := s[..|s| - HoldOpen(s)], s[|s| - HoldOpen(s)..];
    assert s == e + h;
    PrefixHasNone(s, OPEN, |e|);
    HeldIsFinal(s);
    hide *;
    ShownIsPrefix(e, h, v);
    MeaningAcross(e, Normalize(h + v), counter);
    SafeAcross(e, Normalize(h + v));
    ShelterShown(e, h, v);
  }

  lemma {:induction false} TextTurnKeeps(st: State, b: string, v: string)
    requires WellFormed(st) && st.capture.None? && Safe(st, b + v)
    ensures var t := TextTurn(st, b);
            TurnKeeps(st, b, v, t.st, if t.Again? then t.pending else "", t.out) && (t.Done? ==> Quiescent(t.st))
  {
    hide Normalize, Find, Meaning, Safe, BlockMeaning, TextMeaning, SafeRest, SafeText, Sheltered;
    hide Events, Texts, Chars, Clean, InvokeEnd, HoldOpen;
    var held := st.buf + b;
    var s := Normalize(held);
    Assoc(st.buf, b, v);
    NormalizeClean(held);
    NormalizeGrow(held, v);
    ShelterGrown(held, s, v, st, b);
    StateMeaning(st, b + v);
    var t := TextTurn(st, b);
    if t.Done? {
      ShowTurnKeeps(s, v, st.counter);
      EventsTexts(s[..|s| - HoldOpen(s)]);
      assert "" + v == v;
      StateMeaning(t.st, v);
    } else {
      OpenTurnKeeps(s, v, Find(s, OPEN), st.counter);
      EventsTexts(s[..Find(s, OPEN)]);
      assert t.st.capture.value + (t.pending + v) == t.pending + v;
      StateMeaning(t.st, t.pending + v);
    }
  }

  lemma {:induction false} ShelterGrown(held: string, s: string, v: string, st: State, b: string)
    requires st.capture.None? && Safe(st, b + v) && held == st.buf + b && s == Normalize(held)
    ensures Sheltered(false, s + v)
  {
    hide Normalize, Sheltered, SafeText;
    Assoc(st.buf, b, v);
    ShelterNormalized(false, held, v);
  }

  // ---------- whole pushes and whole runs ----------

  /** One push: the filter outputs exactly what the remaining input no longer means. */
  lemma {:induction false} PushKeeps(st: State, b: string, v: string)
    requires WellFormed(st) && Safe(st, b + v)
    ensures var r := Push(st, b);
            && Quiescent(r.st) && Safe(r.st, v)
            && Meaning(st, b + v) == Events(r.out) + Meaning(r.st, v)
    decreases Tags(Held(st) + b)
  {
    hide Meaning, Safe, Events, BlockTurn, TextTurn, Tags, Quiescent;
    if st.capture.Some? {
      BlockTurnKeeps(st, b, v);
    } else {
      TextTurnKeeps(st, b, v);
    }
    var t := OneTurn(st, b);
    assert "" + v == v;
    if t.Again? {
      TurnTags(st, b);
      PushKeeps(t.st, t.pending, v);
      var r := Push(t.st, t.pending);
      EventsAppend(t.out, r.out);
      Assoc(Events(t.out), Events(r.out), Meaning(r.st, v));
    }
  }

  /** At the end of the stream nothing that is held means anything. */
  lemma {:induction false} FinishMeans(st: State)
    requires Quiescent(st)
    ensures Events(Finish(st)) == Meaning(st, "")
  {
    if st.capture.Some? {
      var cap := st.capture.value;
      assert cap + "" == cap;
      assert Strip("") == "" by { NormalizePlain(""); }
      assert Finish(st) == [];
      assert Meaning(st, "") == [];
    } else {
      var buf := st.buf;
      assert buf + "" == buf && buf[..0] == [];
      assert Strip(buf) == "";
      assert Finish(st) == [];
      assert Meaning(st, "") == [];
    }
  }

  /** Chunk invariance: any cutting of a safe stream gives its meaning. */
  lemma {:induction false} ChunkInvariance(st: State, chunks: seq<string>)
    requires Quiescent(st) && Safe(st, Concat(chunks))
    ensures Events(Run(st, chunks)) == Meaning(st, Concat(chunks))
    decreases |chunks|
  {
    if chunks == [] {
      FinishMeans(st);
    } else {
      hide Quiescent, Safe, Meaning, Push, Events;
      PushKeeps(st, chunks[0], Concat(chunks[1..]));
      var r := Push(st, chunks[0]);
      ChunkInvariance(r.st, chunks[1..]);
      EventsAppend(r.out, Run(r.st, chunks[1..]));
    }
  }
}
