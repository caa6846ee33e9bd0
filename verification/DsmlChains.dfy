/** Draining takes invokes off the captured text before the closing tag is looked for, so it can reach
    over closing tags. In a safe stream it then skips nothing but block tags. */
module DsmlChains {
  import opened Text
  import opened DsmlMarkers
  import opened Dsml
  import opened DsmlStreaming
  import opened DsmlSafety

  // ---------- draining past a closing tag ----------

  lemma {:induction false} SkipBounds(g: string, y: string)
    requires forall i :: 0 <= i < |g| ==> !At(g + y, INVOKE_OPEN, i)
    ensures InvokeEnd(y) == -1 ==> InvokeEnd(g + y) == -1
    ensures InvokeEnd(y) != -1 ==>
              && 0 <= InvokeStart(y) < InvokeEnd(y) <= |y|
              && InvokeStart(g + y) == |g| + InvokeStart(y) && InvokeEnd(g + y) == |g| + InvokeEnd(y)
  {
    FindSkip(g, y, INVOKE_OPEN);
    hide Find;
    var start := Find(y, INVOKE_OPEN);
    assert start != -1 ==> (g + y)[|g| + start..] == y[start..];
  }

  /** Text in which no invoke starts is skipped on the way to the next one. */
  lemma {:induction false} SkipGap(g: string, y: string, counter: nat)
    requires forall i :: 0 <= i < |g| ==> !At(g + y, INVOKE_OPEN, i)
    ensures InvokeEnd(y) != -1 ==> Drain(g + y, counter) == Drain(y, counter)
    ensures InvokeEnd(y) == -1 ==> Drain(g + y, counter) == Drained([], g + y, counter)
  {
    SkipBounds(g, y);
    if InvokeEnd(y) == -1 {
      NothingDrained(g + y, counter);
    } else {
      hide *;
      SameFirstCall(g, y, counter);
      DrainStep(g + y, counter);
      DrainStep(y, counter);
    }
  }

  lemma {:induction false} SameFirstCall(g: string, y: string, counter: nat)
    requires InvokeEnd(y) != -1 && 0 <= InvokeStart(y) < InvokeEnd(y) <= |y|
    requires InvokeStart(g + y) == |g| + InvokeStart(y) && InvokeEnd(g + y) == |g| + InvokeEnd(y)
    ensures InvokeEnd(g + y) != -1 && (g + y)[InvokeEnd(g + y)..] == y[InvokeEnd(y)..]
    ensures FirstCall(g + y, counter) == FirstCall(y, counter) && CounterAfter(g + y, counter) == CounterAfter(y, counter)
  {
    hide InvokeStart, InvokeEnd, ParseInvoke;
    assert (g + y)[|g| + InvokeStart(y)..|g| + InvokeEnd(y)] == y[InvokeStart(y)..InvokeEnd(y)];
  }

  /** No invoke starts in a block tag. */
  lemma {:induction false} NoInvokeInTag(tag: string, y: string)
    requires tag == OPEN || tag == CLOSE
    ensures forall i :: 0 <= i < |tag| ==> !At(tag + y, INVOKE_OPEN, i)
  {
    TagsAreSegments();
    var s := tag + y;
    forall i | 0 <= i < |tag|
      ensures !At(s, INVOKE_OPEN, i)
    {
      AtChar(s, INVOKE_OPEN, i, 0);
      AtChar(s, INVOKE_OPEN, 0, 7);
      AtChar(s, INVOKE_OPEN, 0, 1);
      assert s[i] == tag[i] && s[1] == tag[1] && s[7] == tag[7];
      if i > 0 {
        SegmentChar(tag, i);
      }
    }
  }

  lemma {:induction false} NoneAcross(a: string, b: string, p: string)
    requires Segment(p) && AtTag(b) && Find(a, p) == -1
    ensures forall i :: 0 <= i < |a| ==> !At(a + b, p, i)
  {
    forall i | 0 <= i < |a|
      ensures !At(a + b, p, i)
    {
      if At(a + b, p, i) {
        NoStraddle(a, b, p, i);
      }
    }
  }

  lemma {:induction false} NoneInEither(a: string, b: string, y: string, p: string)
    requires forall i :: 0 <= i < |a| ==> !At(a + (b + y), p, i)
    requires forall i :: 0 <= i < |b| ==> !At(b + y, p, i)
    ensures forall i :: 0 <= i < |a + b| ==> !At(a + b + y, p, i)
  {
    assert a + b + y == a + (b + y);
    forall i | |a| <= i < |a + b|
      ensures !At(a + (b + y), p, i)
    {
      AtRight(a, b + y, p, i);
    }
  }

  /** What stands between the last invoke of a block and the next block holds no invoke. */
  lemma {:induction false} NoInvokeInGap(r: string, y: string)
    requires Find(r, INVOKE_OPEN) == -1
    ensures forall i :: 0 <= i < |r + (CLOSE + OPEN)| ==> !At(r + (CLOSE + OPEN) + y, INVOKE_OPEN, i)
  {
    TagsAreSegments();
    assert CLOSE[0] == '<' && OPEN[0] == '<';
    assert forall a: string, t: string :: a == CLOSE + t || a == OPEN + t ==> AtTag(a);
    NoInvokeInTag(OPEN, y);
    NoInvokeInTag(CLOSE, OPEN + y);
    hide *;
    NoneInEither(CLOSE, OPEN, y, INVOKE_OPEN);
    Assoc(CLOSE, OPEN, y);
    NoneAcross(r, CLOSE + OPEN + y, INVOKE_OPEN);
    NoneInEither(r, CLOSE + OPEN, y, INVOKE_OPEN);
  }

  lemma {:induction false} RestWithoutCounter(m: string, counter: nat)
    ensures Drain(m, counter).rest == Undrained(m)
  {
    SameRest(m, counter, 0);
  }

  lemma {:induction false} SameRest(m: string, counter: nat, counter': nat)
    ensures Drain(m, counter).rest == Drain(m, counter').rest
    decreases |m|
  {
    hide Find, ParseInvoke;
    if InvokeEnd(m) != -1 {
      var block, end := m[InvokeStart(m)..InvokeEnd(m)], InvokeEnd(m);
      SameRest(m[end..], if ParseInvoke(block, counter).Some? then counter + 1 else counter,
               if ParseInvoke(block, counter').Some? then counter' + 1 else counter');
    }
  }

  // ---------- drained text that reaches over closing tags ----------

  /** Every block that closes in `done` is followed by the next one at once. */
  ghost predicate Chained(done: string)
    decreases |done|
  {
    var q := Find(done, CLOSE);
    q == -1 ||
    var x := done[q + |CLOSE|..];
    OPEN <= x && Find(Undrained(done[..q]), INVOKE_OPEN) == -1 && Chained(x[|OPEN|..])
  }

  /** Text that draining takes as a whole. */
  ghost predicate AllDrained(done: string) {
    Undrained(done) == ""
  }

  lemma {:induction false} AllDrainedEnds(done: string)
    requires AllDrained(done)
    ensures EndsInvoke(done) && Consumed(done, 0) == done
  {
    hide *;
    ConsumedEnds(done, 0);
    ConsumedSplit(done, 0);
    NothingLeft(done);
    assert Consumed(done, 0) + "" == Consumed(done, 0);
  }

  lemma {:induction false} NothingLeft(done: string)
    requires AllDrained(done)
    ensures Drain(done, 0).rest == ""
  {
    hide Drain;
  }

  /** No closing tag starts in drained text and ends behind it. */
  lemma {:induction false} CloseInside(done: string, x: string, i: nat)
    requires EndsInvoke(done) && i < |done| && At(done + x, CLOSE, i)
    ensures At(done, CLOSE, i) && i + |CLOSE| <= |done| - |INVOKE_CLOSE|
  {
    TagsAreSegments();
    var j, m := |done| - |INVOKE_CLOSE|, done + x;
    assert m[j..j + |INVOKE_CLOSE|] == INVOKE_CLOSE;
    if j <= i {
      CloseIsNotInvokeClose(m, i, j);
    }
    AtChar(m, INVOKE_CLOSE, j, 0);
    assert m == m[..j] + m[j..];
    NoStraddle(m[..j], m[j..], CLOSE, i);
    AtLeft(done, x, CLOSE, i);
  }

  /** Where the next closing tag stands behind drained text. */
  lemma {:induction false} CloseBehind(done: string, x: string)
    requires EndsInvoke(done)
    ensures Find(done, CLOSE) != -1 ==> Find(done + x, CLOSE) == Find(done, CLOSE)
    ensures Find(done, CLOSE) == -1 ==>
              Find(done + x, CLOSE) == if Find(x, CLOSE) == -1 then -1 else |done| + Find(x, CLOSE)
  {
    assert CLOSE != [];
    hide EndsInvoke, At;
    if Find(done, CLOSE) != -1 {
      FindStable(done, x, CLOSE);
    } else {
      forall i | 0 <= i < |done|
        ensures !At(done + x, CLOSE, i)
      {
        if At(done + x, CLOSE, i) {
          CloseInside(done, x, i);
        }
      }
      FindSkip(done, x, CLOSE);
    }
  }

  /** Draining in two steps, when the first takes everything. */
  lemma {:induction false} DrainOnwards(done: string, x: string, counter: nat)
    requires AllDrained(done)
    ensures var d := Drain(done, counter);
            Drain(done + x, counter) == Prepend(d.calls, Drain(x, d.counter))
  {
    RestWithoutCounter(done, counter);
    DrainResume(done, x, counter);
    hide Drain;
    assert done[..|done|] == done;
  }

  /** The text up to the first closing tag, and the drained text of the blocks behind it. */
  lemma {:induction false} ChainStep(done: string, a: string, done': string)
    requires AllDrained(done) && Find(done, CLOSE) == |a| && done == a + CLOSE + (OPEN + done')
    requires Find(Undrained(a), INVOKE_OPEN) == -1
    ensures AllDrained(done')
    ensures forall counter: nat ::
              var d := Drain(a, counter);
              Drain(done, counter) == Prepend(d.calls, Drain(done', d.counter))
  {
    assert CLOSE != [];
    hide *;
    ChainDrain(done, a, done', 0);
    forall counter: nat
      ensures var d := Drain(a, counter);
              Drain(done, counter) == Prepend(d.calls, Drain(done', d.counter))
    {
      ChainDrain(done, a, done', counter);
    }
  }

  lemma {:induction false} ChainDrain(done: string, a: string, done': string, counter: nat)
    requires AllDrained(done) && done == a + CLOSE + (OPEN + done')
    requires Find(Undrained(a), INVOKE_OPEN) == -1
    ensures AllDrained(done')
    ensures var d := Drain(a, counter);
            Drain(done, counter) == Prepend(d.calls, Drain(done', d.counter))
  {
    var d := Drain(a, counter);
    var g := d.rest + (CLOSE + OPEN);
    assert g != [] by { assert OPEN != []; }
    hide *;
    RestWithoutCounter(a, counter);
    ConsumedSplit(a, counter);
    Regroup(Consumed(a, counter), d.rest, done');
    DrainResume(a, g + done', counter);
    NoInvokeInGap(d.rest, done');
    SkipGap(g, done', d.counter);
    RestWithoutCounter(done, counter);
    RestWithoutCounter(done', d.counter);
    PrependRest(d.calls, Drain(g + done', d.counter));
    DrainedRest(done, done', g, counter, d.counter);
  }

  lemma {:induction false} PrependRest(calls: seq<ToolCall>, d: Drained)
    ensures Prepend(calls, d).rest == d.rest
  {
  }

  lemma {:induction false} Regroup(front: string, r: string, y: string)
    ensures front + r + CLOSE + (OPEN + y) == front + (r + (CLOSE + OPEN) + y)
  {
  }

  lemma {:induction false} DrainedRest(done: string, done': string, g: string, counter: nat, counter': nat)
    requires AllDrained(done) && Drain(done, counter).rest == Undrained(done)
    requires Drain(done', counter').rest == Undrained(done') && g != []
    requires Drain(done, counter).rest == Drain(g + done', counter').rest
    requires InvokeEnd(done') != -1 ==> Drain(g + done', counter') == Drain(done', counter')
    requires InvokeEnd(done') == -1 ==> Drain(g + done', counter') == Drained([], g + done', counter')
    ensures AllDrained(done') && InvokeEnd(done') != -1
  {
    hide Drain, InvokeEnd, Undrained;
  }

  /** In a safe block, drained text reaches over closing tags only where the next block opens at once. */
  lemma {:induction false} SafeChained(done: string, x: string)
    requires AllDrained(done) && SafeRest(done + x)
    ensures Chained(done) && SafeRest(x)
    decreases |done|
  {
    AllDrainedEnds(done);
    CloseBehind(done, x);
    var q := Find(done, CLOSE);
    if q == -1 {
      hide *;
      NotChained(done);
      SafeBehind(done, x);
    } else {
      hide *;
      var a, done' := ChainParts(done, x);
      ChainStep(done, a, done');
      SafeChained(done', x);
      ChainedIs(done, a, done');
    }
  }

  lemma {:induction false} NotChained(done: string)
    requires Find(done, CLOSE) == -1
    ensures Chained(done)
  {
    hide Find;
  }

  lemma {:induction false} ChainedIs(done: string, a: string, done': string)
    requires done == a + CLOSE + (OPEN + done') && Find(done, CLOSE) == |a|
    ensures Chained(done) <==> Find(Undrained(a), INVOKE_OPEN) == -1 && Chained(done')
  {
    hide Find, Undrained;
    assert done[|a| + |CLOSE|..] == OPEN + done' && (OPEN + done')[|OPEN|..] == done' && done[..|a|] == a;
  }

  lemma {:induction false} SafeBehind(done: string, x: string)
    requires AllDrained(done) && SafeRest(done + x)
    requires Find(done + x, CLOSE) == if Find(x, CLOSE) == -1 then -1 else |done| + Find(x, CLOSE)
    ensures SafeRest(x)
  {
    hide Find, SafeText, AllDrained, Drain, Occurs;
    var q := Find(x, CLOSE);
    if q != -1 {
      assert (done + x)[|done| + q + |CLOSE|..] == x[q + |CLOSE|..];
      assert (done + x)[..|done| + q] == done + x[..q];
      DrainOnwards(done, x[..q], 0);
      RestWithoutCounter(x[..q], Drain(done, 0).counter);
    }
  }

  /** The parts of drained text that holds a closing tag. */
  lemma {:induction false} ChainParts(done: string, x: string) returns (a: string, done': string)
    requires AllDrained(done) && SafeRest(done + x)
    requires Find(done, CLOSE) != -1 && Find(done + x, CLOSE) == Find(done, CLOSE)
    ensures done == a + CLOSE + (OPEN + done') && Find(done, CLOSE) == |a|
    ensures Find(Undrained(a), INVOKE_OPEN) == -1 && SafeRest(done' + x)
  {
    var q := Find(done, CLOSE);
    InvokeClosesBehind(done, x, q);
    hide *;
    a := done[..q];
    var d1 := done[q + |CLOSE|..];
    var k := |d1| - |INVOKE_CLOSE|;
    AroundAt(done, CLOSE, q);
    AtLeft(d1, x, INVOKE_CLOSE, k);
    Assoc(a + CLOSE, d1, x);
    BehindClose(a, d1 + x, k);
    OpenInside(d1, x, k);
    done' := d1[|OPEN|..];
    PrefixParts(d1, OPEN);
    Assoc(OPEN, done', x);
    TailFrom(OPEN, done' + x);
  }

  lemma {:induction false} PrefixParts(d: string, p: string)
    requires p <= d
    ensures d == p + d[|p|..]
  {
  }

  lemma {:induction false} InvokeClosesBehind(done: string, x: string, q: nat)
    requires AllDrained(done) && q == Find(done, CLOSE)
    ensures At(done, CLOSE, q)
    ensures var d1 := done[q + |CLOSE|..];
            |d1| >= |INVOKE_CLOSE| && At(d1, INVOKE_CLOSE, |d1| - |INVOKE_CLOSE|)
  {
    assert |CLOSE| > 0;
    hide *;
    AllDrainedEnds(done);
    FindBounds(done, CLOSE);
    AtLeft(done, x, CLOSE, q);
    CloseInside(done, x, q);
    TailEndsInvoke(done, q);
  }

  lemma {:induction false} TailEndsInvoke(done: string, q: nat)
    requires EndsInvoke(done) && At(done, CLOSE, q) && q + |CLOSE| <= |done| - |INVOKE_CLOSE|
    ensures var d1 := done[q + |CLOSE|..];
            |d1| >= |INVOKE_CLOSE| && At(d1, INVOKE_CLOSE, |d1| - |INVOKE_CLOSE|)
  {
    var d1 := done[q + |CLOSE|..];
    var k := |d1| - |INVOKE_CLOSE|;
    assert d1[k..k + |INVOKE_CLOSE|] == done[|done| - |INVOKE_CLOSE|..];
  }

  /** Behind a closing tag with an invoke still to be closed, a safe block opens at once. */
  lemma {:induction false} BehindClose(a: string, y: string, k: nat)
    requires SafeRest(a + CLOSE + y) && Find(a + CLOSE + y, CLOSE) == |a| && At(y, INVOKE_CLOSE, k)
    ensures OPEN <= y && Find(Undrained(a), INVOKE_OPEN) == -1 && SafeRest(y[|OPEN|..])
  {
    hide Undrained;
    var m := a + CLOSE + y;
    assert m[..|a|] == a && m[|a| + |CLOSE|..] == y;
    assert Occurs(y, INVOKE_CLOSE);
    assert At(y, OPEN, 0);
    assert Find(y, OPEN) == 0;
  }

  /** An opening tag in front of a closing invoke tag ends in front of it. */
  lemma {:induction false} OpenInside(d: string, x: string, k: nat)
    requires OPEN <= d + x && At(d, INVOKE_CLOSE, k)
    ensures OPEN <= d
  {
    TagsAreSegments();
    AtChar(d, INVOKE_CLOSE, k, 0);
    AtChar(d, INVOKE_CLOSE, k, 1);
    assert (d + x)[1] == OPEN[1] && d[k + 1] == (d + x)[k + 1];
    assert forall i :: 0 < i < |OPEN| ==> (d + x)[i] == OPEN[i] == OPEN[1..][i - 1];
    assert d[k] == (d + x)[k];
    assert k >= |OPEN|;
    assert (d + x)[..|OPEN|] == d[..|OPEN|];
  }

  /** Drained invokes come first, whatever follows. */
  lemma {:induction false} ChainedMeaning(done: string, x: string, counter: nat)
    requires AllDrained(done) && Chained(done)
    ensures var d := Drain(done, counter);
            BlockMeaning(done + x, counter) == CallEvents(d.calls) + BlockMeaning(x, d.counter)
    decreases |done|
  {
    AllDrainedEnds(done);
    CloseBehind(done, x);
    if Find(done, CLOSE) == -1 {
      hide *;
      UnchainedMeaning(done, x, counter);
    } else {
      hide *;
      var a, done' := ChainSplit(done);
      ChainStep(done, a, done');
      var d := Drain(a, counter);
      var e := Drain(done', d.counter);
      ChainedMeaning(done', x, d.counter);
      ReopenedMeaning(a, done' + x, counter, done + x);
      PrependCalls(d, e);
      Assoc(CallEvents(d.calls), CallEvents(e.calls), BlockMeaning(x, e.counter));
    }
  }

  lemma {:induction false} ChainSplit(done: string) returns (a: string, done': string)
    requires Chained(done) && Find(done, CLOSE) != -1
    ensures done == a + CLOSE + (OPEN + done') && Find(done, CLOSE) == |a|
    ensures forall x: string :: done + x == a + CLOSE + (OPEN + (done' + x))
    ensures Find(Undrained(a), INVOKE_OPEN) == -1 && Chained(done')
  {
    hide Undrained;
    var q := Find(done, CLOSE);
    a, done' := done[..q], done[q + |CLOSE|..][|OPEN|..];
    AroundAt(done, CLOSE, q);
    assert done[q + |CLOSE|..] == OPEN + done';
  }

  lemma {:induction false} UnchainedMeaning(done: string, x: string, counter: nat)
    requires AllDrained(done)
    requires Find(done + x, CLOSE) == if Find(x, CLOSE) == -1 then -1 else |done| + Find(x, CLOSE)
    ensures var d := Drain(done, counter);
            BlockMeaning(done + x, counter) == CallEvents(d.calls) + BlockMeaning(x, d.counter)
  {
    hide *;
    var d, q := Drain(done, counter), Find(x, CLOSE);
    if q == -1 {
      MeaningOfOpenBlock(x, d.counter);
      MeaningOfOpenBlock(done + x, counter);
      DrainOnwards(done, x, counter);
      PrependCalls(d, Drain(x, d.counter));
    } else {
      MeaningOfClosedBlock(x, d.counter, q);
      MeaningOfClosedBlock(done + x, counter, |done| + q);
      SliceAcross(done, x, q, q + |CLOSE|);
      DrainOnwards(done, x[..q], counter);
      var e := Drain(x[..q], d.counter);
      PrependCalls(d, e);
      Assoc(CallEvents(d.calls), CallEvents(e.calls), TextMeaning(x[q + |CLOSE|..], e.counter));
    }
  }

  /** A block that is followed by the next one at once. */
  lemma {:induction false} ReopenedMeaning(a: string, y: string, counter: nat, m: string)
    requires m == a + CLOSE + (OPEN + y) && Find(m, CLOSE) == |a|
    ensures var d := Drain(a, counter);
            BlockMeaning(m, counter) == CallEvents(d.calls) + BlockMeaning(y, d.counter)
  {
    assert At(OPEN + y, OPEN, 0);
    assert Find(OPEN + y, OPEN) == 0;
    hide Find, Drain, BlockMeaning, TextMeaning;
    assert m[..|a|] == a && m[|a| + |CLOSE|..] == OPEN + y && (OPEN + y)[0 + |OPEN|..] == y && (OPEN + y)[..0] == "";
    var d := Drain(a, counter);
    MeaningOfClosedBlock(m, counter, |a|);
    MeaningOfOpenedText(OPEN + y, d.counter, 0);
    assert Chars("") + BlockMeaning(y, d.counter) == BlockMeaning(y, d.counter);
  }

  /** Drained text leaves the block open. */
  lemma {:induction false} ChainedStaysOpen(done: string, y: string)
    requires AllDrained(done) && Chained(done)
    ensures InBlock(true, done + y) == InBlock(true, y)
    decreases |done|
  {
    AllDrainedEnds(done);
    CloseBehind(done, y);
    if Find(done, CLOSE) == -1 {
      hide *;
      SameFirstClose(done, y);
    } else {
      hide *;
      var a, done' := ChainSplit(done);
      ChainStep(done, a, done');
      ChainedStaysOpen(done', y);
      ReopensAgain(a, done' + y, done + y);
    }
  }

  lemma {:induction false} SameFirstClose(done: string, y: string)
    requires Find(done + y, CLOSE) == if Find(y, CLOSE) == -1 then -1 else |done| + Find(y, CLOSE)
    ensures InBlock(true, done + y) == InBlock(true, y)
  {
    hide Find;
    var q := Find(y, CLOSE);
    assert q != -1 ==> (done + y)[|done| + q + |CLOSE|..] == y[q + |CLOSE|..];
  }

  lemma {:induction false} ReopensAgain(a: string, y: string, m: string)
    requires m == a + CLOSE + (OPEN + y) && Find(m, CLOSE) == |a|
    ensures InBlock(true, m) == InBlock(true, y)
  {
    assert At(OPEN + y, OPEN, 0);
    assert Find(OPEN + y, OPEN) == 0;
    hide Find;
    assert m[|a| + |CLOSE|..] == OPEN + y && (OPEN + y)[0 + |OPEN|..] == y;
  }
}
