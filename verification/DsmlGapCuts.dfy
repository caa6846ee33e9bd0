/** Chunkings of streams of blocks: what one chunk loses, and when nothing is lost. */
module DsmlGapCuts {
  import opened Options
  import opened Text
  import opened DsmlMarkers
  import opened Dsml
  import opened DsmlStreaming
  import opened DsmlSafety
  import opened DsmlChains
  import opened DsmlCuts
  import opened DsmlInvokes
  import opened DsmlGaps

  // ---------- closing tags stand inside blocks only ----------

  /** Every closing tag of a normalised text stands inside a block. */
  ghost predicate Guarded(open: bool, n: string) {
    forall k :: At(n, CLOSER, k) ==> InBlock(open, n[..k])
  }

  lemma {:induction false} AliasBecomesCloser(w: string, i: int)
    requires ClosingAlias(w, i)
    ensures 0 <= i <= |w| && At(Normalize(w), CLOSER, |Normalize(w[..i])|)
    ensures |Normalize(w[..i])| <= |Normalize(w)| && Normalize(w)[..|Normalize(w[..i])|] == Normalize(w[..i])
  {
    AliasTag(w, i);
    hide *;
    var a, seg, rest := AliasParts(w, i);
    NormalizeSplit(a, seg + rest);
    NormalizeSplit(seg, rest);
    NormalizeSegment(seg);
    AliasAtFront(seg);
    var p :| CloserAlias(p) && p <= seg;
    HeadOfCloser(seg, p);
    CloserBehind(Normalize(a), Head(seg), Normalize(rest));
    TakeFront(Normalize(a), Normalize(seg + rest));
  }

  lemma {:induction false} CloserBehind(a: string, t: string, z: string)
    requires CLOSER <= t
    ensures At(a + (t + z), CLOSER, |a|)
  {
    assert (a + (t + z))[|a|..|a| + |CLOSER|] == t[..|CLOSER|];
  }

  lemma {:induction false} TakeFront(a: string, b: string)
    ensures (a + b)[..|a|] == a
  {
  }

  lemma {:induction false} GuardedIsSheltered(open: bool, w: string)
    requires Guarded(open, Normalize(w))
    ensures Sheltered(open, w)
  {
    hide Normalize, InBlock;
    forall i | ClosingAlias(w, i)
      ensures InBlock(open, Normalize(w[..i]))
    {
      AliasBecomesCloser(w, i);
    }
  }

  /** Prose in front changes nothing. */
  lemma {:induction false} ProseGuards(t: string, z: string)
    requires Prose(t) && AtTag(z) && Guarded(false, z)
    requires forall y: string :: InBlock(false, t + y) == InBlock(false, y)
    ensures Guarded(false, t + z)
  {
    AliasesAreSegments();
    hide InBlock;
    forall k | At(t + z, CLOSER, k)
      ensures InBlock(false, (t + z)[..k])
    {
      if k < |t| {
        NoStraddle(t, z, CLOSER, k);
      }
      AtRight(t, z, CLOSER, k);
      assert (t + z)[..k] == t + z[..k - |t|];
    }
  }

  lemma {:induction false} OpenGuards(m: string)
    requires Guarded(true, m)
    ensures Guarded(false, OPEN + m)
  {
    TagsAreSegments();
    hide InBlock;
    forall k | At(OPEN + m, CLOSER, k)
      ensures InBlock(false, (OPEN + m)[..k])
    {
      AtChar(OPEN + m, CLOSER, k, 0);
      AtChar(OPEN + m, CLOSER, k, 1);
      assert forall j :: 0 < j < |OPEN| ==> (OPEN + m)[j] == OPEN[j] == OPEN[1..][j - 1];
      AtRight(OPEN, m, CLOSER, k);
      assert (OPEN + m)[..k] == OPEN + m[..k - |OPEN|];
      OpenedMode(m[..k - |OPEN|]);
    }
  }

  lemma {:induction false} OpenedMode(m: string)
    ensures InBlock(false, OPEN + m) == InBlock(true, m)
  {
    OpensAtOnce(m);
    hide Find;
  }

  lemma {:induction false} CloseGuards(block: string, x: string)
    requires Guarded(false, x) && Find(block + CLOSE + x, CLOSE) == |block|
    ensures Guarded(true, block + CLOSE + x)
  {
    AliasesAreSegments();
    hide InBlock, Find;
    var m := block + CLOSE + x;
    forall k | At(m, CLOSER, k)
      ensures InBlock(true, m[..k])
    {
      if k < |block + CLOSE| {
        OpenUpTo(block, x, k);
      } else {
        AtRight(block + CLOSE, x, CLOSER, k);
        assert m[..k] == block + CLOSE + x[..k - |block + CLOSE|];
        InBlockPast(block, x, x[..k - |block + CLOSE|], true);
      }
    }
  }

  lemma {:induction false} OpenUpTo(block: string, x: string, k: nat)
    requires Find(block + CLOSE + x, CLOSE) == |block| && k < |block + CLOSE|
    ensures InBlock(true, (block + CLOSE + x)[..k])
  {
    var m := block + CLOSE + x;
    var j := Find(m[..k], CLOSE);
    if j != -1 {
      assert m == m[..k] + m[k..];
      AtLeft(m[..k], m[k..], CLOSE, j);
    }
  }

  lemma {:induction false} RenderedIsGuarded(blocks: seq<Block>)
    requires GoodBlocks(blocks)
    ensures Guarded(false, Rendered(blocks))
    ensures blocks != [] ==> Guarded(false, Closed(blocks))
    decreases |blocks|
  {
    hide *;
    if blocks == [] {
      NothingGuarded(blocks);
    } else {
      GoodFirst(blocks);
      var b := blocks[0];
      RenderedIsGuarded(blocks[1..]);
      RenderedAtTag(blocks[1..]);
      ProseAcross(b.after, blocks[1..], 0);
      ProseGuards(b.after, Rendered(blocks[1..]));
      OpenedIs(blocks);
      FirstCloses(blocks);
      CloseGuards(RenderBlock(b.invokes, b.end), Closed(blocks));
      OpenGuards(Opened(blocks));
    }
  }

  lemma {:induction false} NothingGuarded(blocks: seq<Block>)
    requires blocks == []
    ensures Guarded(false, Rendered(blocks))
  {
    assert CLOSER != [];
  }

  // ---------- seamless streams ----------

  /** The stream that `w` is a spelling of. */
  ghost predicate Spells(w: string, before: string, blocks: seq<Block>) {
    Normalize(w) == before + Rendered(blocks) && Prose(before) && GoodBlocks(blocks)
  }

  /** Behind one another without text in between, blocks and texts are shown by every chunking as
      they are: one call per invoke in order, and each text in its place. */
  lemma {:induction false} SeamlessStream(chunks: seq<string>, before: string, blocks: seq<Block>, counter: nat)
    requires Spells(Concat(chunks), before, blocks) && Seamless(blocks)
    ensures Seen(Idle(counter), chunks) == Chars(before) + BlockEvents(blocks, counter)
  {
    hide *;
    var w := Concat(chunks);
    SpellsIs(w, before, blocks);
    ProseAcross(before, blocks, counter);
    SeamlessIsSafe(blocks);
    RenderedIsGuarded(blocks);
    RenderedAtTag(blocks);
    ProseGuards(before, Rendered(blocks));
    GuardedIsSheltered(false, w);
    MeaningOfRendered(blocks, counter);
    IdleSees(chunks, counter);
  }

  lemma {:induction false} SpellsIs(w: string, before: string, blocks: seq<Block>)
    ensures Spells(w, before, blocks) <==>
              Normalize(w) == before + Rendered(blocks) && Prose(before) && GoodBlocks(blocks)
  {
    hide Normalize, Rendered, Prose, GoodBlocks;
  }

  // ---------- cutting a spelling behind a block ----------

  /** A spelling can be cut wherever its normal form has a tag. */
  lemma {:induction false} CutSpelling(w: string, n: string, z: string) returns (a: string, b: string)
    requires Normalize(w) == n + z && AtTag(z)
    ensures w == a + b && Normalize(a) == n && Normalize(b) == z
    decreases |z|
  {
    hide *;
    if z == [] {
      a, b := w, [];
      NormalizeNothing();
      assert n + z == n && a + b == w;
    } else {
      HasTag(n, z);
      if Plain(w) {
        NormalizePlain(w);
      }
      a, b := CutLastTag(w, n, z);
    }
  }

  lemma {:induction false} NormalizeNothing()
    ensures Normalize("") == ""
  {
    NormalizePlain("");
  }

  lemma {:induction false} HasTag(n: string, z: string)
    requires AtTag(z) && z != []
    ensures !Plain(n + z) && !Plain(z)
  {
    assert (n + z)[|n|] == '<';
  }

  lemma {:induction false} CutLastTag(w: string, n: string, z: string) returns (a: string, b: string)
    requires Normalize(w) == n + z && AtTag(z) && z != [] && !Plain(w) && !Plain(z)
    ensures w == a + b && Normalize(a) == n && Normalize(b) == z
    decreases |z|, 0
  {
    hide Normalize, Head;
    var i, j := LastTag(w), LastTag(z);
    var w0, seg, z0, last := w[..i], w[i..], z[..j], z[j..];
    assert w == w0 + seg && z == z0 + last && n + z == (n + z0) + last;
    NormalizeSplit(w0, seg);
    NormalizeSegment(seg);
    LastTagUnique(Normalize(w0), Head(seg), n + z0, last);
    assert AtTag(z0);
    var b0;
    a, b0 := CutSpelling(w0, n, z0);
    b := b0 + seg;
    NormalizeSplit(b0, seg);
    assert w == a + b;
  }

  // ---------- the calls and the lost text of one chunk ----------

  function Count(blocks: seq<Block>): nat {
    if blocks == [] then 0 else |blocks[0].invokes| + Count(blocks[1..])
  }

  function AllCalls(blocks: seq<Block>, counter: nat): seq<ToolCall> {
    if blocks == [] then []
    else CallsOf(blocks[0].invokes, counter) + AllCalls(blocks[1..], counter + |blocks[0].invokes|)
  }

  /** The last block that holds an invoke and the blocks behind it, or all blocks if none does. */
  function LastBlocks(blocks: seq<Block>): (r: seq<Block>)
    requires blocks != []
    ensures r != [] && !HasInvoke(r[1..])
    decreases |blocks|
  {
    if HasInvoke(blocks[1..]) then LastBlocks(blocks[1..]) else blocks
  }

  function AllText(blocks: seq<Block>): string {
    if blocks == [] then "" else blocks[0].after + AllText(blocks[1..])
  }

  /** The text that stands behind the last block with an invoke. */
  function KeptText(blocks: seq<Block>): string {
    if blocks == [] then "" else AllText(LastBlocks(blocks))
  }

  lemma {:induction false} LastIsGood(blocks: seq<Block>)
    requires blocks != [] && GoodBlocks(blocks)
    ensures GoodBlocks(LastBlocks(blocks)) && Seamless(LastBlocks(blocks))
    ensures Seamless(LastBlocks(blocks)[1..])
    decreases |blocks|
  {
    hide GoodInvokes, Prose;
    if HasInvoke(blocks[1..]) {
      LastIsGood(blocks[1..]);
    } else {
      QuietIsSeamless(blocks[1..]);
    }
  }

  lemma {:induction false} QuietIsSeamless(blocks: seq<Block>)
    requires !HasInvoke(blocks)
    ensures Seamless(blocks)
    decreases |blocks|
  {
    if blocks != [] {
      QuietIsSeamless(blocks[1..]);
    }
  }

  lemma {:induction false} QuietEvents(blocks: seq<Block>, counter: nat)
    requires !HasInvoke(blocks)
    ensures BlockEvents(blocks, counter) == Chars(AllText(blocks)) && AllCalls(blocks, counter) == [] && Count(blocks) == 0
    decreases |blocks|
  {
    if blocks != [] {
      hide Chars;
      QuietEvents(blocks[1..], counter);
      CharsAppend(blocks[0].after, AllText(blocks[1..]));
      NoCallEvents(Chars(AllText(blocks)));
    } else {
      NoChars([]);
    }
  }

  /** What draining leaves when everything has arrived. */
  function LastRest(blocks: seq<Block>): string
    requires blocks != []
  {
    LastBlocks(blocks)[0].end + (CLOSE + Closed(LastBlocks(blocks)))
  }

  lemma {:induction false} DrainLast(blocks: seq<Block>, counter: nat)
    requires blocks != [] && GoodBlocks(blocks) && !HasInvoke(blocks[1..])
    ensures var b := blocks[0];
            Drain(Opened(blocks), counter)
            == Drained(CallsOf(b.invokes, counter), b.end + (CLOSE + Closed(blocks)), counter + |b.invokes|)
  {
    GoodFirst(blocks);
    CloserFree(blocks);
    hide *;
    var b := blocks[0];
    OpenedIs(blocks);
    DrainUpTo(b.invokes, b.end, CLOSE + Closed(blocks), counter);
    Assoc(RenderBlock(b.invokes, b.end), CLOSE, Closed(blocks));
    NoInvokeBehind(b.end, Closed(blocks));
    NothingDrained(b.end + (CLOSE + Closed(blocks)), counter + |b.invokes|);
    NoMoreCalls(CallsOf(b.invokes, counter), b.end + (CLOSE + Closed(blocks)), counter + |b.invokes|);
  }

  lemma {:induction false} NoMoreCalls(calls: seq<ToolCall>, rest: string, counter: nat)
    ensures Prepend(calls, Drained([], rest, counter)) == Drained(calls, rest, counter)
  {
  }

  /** Draining a block and going on behind it. */
  lemma {:induction false} DrainUpTo(invokes: seq<Invoke>, end: string, y: string, counter: nat)
    requires GoodInvokes(invokes) && Plain(end)
    ensures Drain(RenderBlock(invokes, end) + y, counter)
            == Prepend(CallsOf(invokes, counter), Drain(end + y, counter + |invokes|))
  {
    hide *;
    var block := RenderBlock(invokes, end);
    DrainBlock(invokes, end, counter);
    ConsumedSplit(block, counter);
    DrainResume(block, end + y, counter);
    Assoc(Consumed(block, counter), end, y);
  }

  lemma {:induction false} NoInvokeBehind(end: string, x: string)
    requires Plain(end) && !Occurs(x, INVOKE_CLOSE)
    ensures InvokeEnd(end + (CLOSE + x)) == -1
  {
    TagsAreSegments();
    NotInPlain(end);
    assert AtTag(CLOSE + x) by { assert CLOSE[0] == '<'; }
    TagEnds(CLOSE, x);
    TextEnds(end, CLOSE + x, INVOKE_CLOSE);
    NotInTail(end + (CLOSE + x));
  }

  lemma {:induction false} NotInTail(m: string)
    requires Find(m, INVOKE_CLOSE) == -1
    ensures InvokeEnd(m) == -1
  {
    var start := InvokeStart(m);
    if start != -1 {
      var rel := Find(m[start..], INVOKE_CLOSE);
      assert m == m[..start] + m[start..];
      if rel != -1 {
        AtRight(m[..start], m[start..], INVOKE_CLOSE, start + rel);
      }
    }
  }

  /** In one go, draining reaches the last invoke of the stream. */
  lemma {:induction false} DrainAll(blocks: seq<Block>, counter: nat)
    requires blocks != [] && GoodBlocks(blocks)
    ensures Drain(Opened(blocks), counter)
            == Drained(AllCalls(blocks, counter), LastRest(blocks), counter + Count(blocks))
    decreases |blocks|
  {
    hide *;
    PartsOf(blocks, counter);
    if HasInvoke(blocks[1..]) {
      GoodFirst(blocks);
      var b, rest := blocks[0], blocks[1..];
      HasInvokeIs(rest);
      DrainAll(rest, counter + |b.invokes|);
      DrainOver(blocks, counter);
      PrependDrained(CallsOf(b.invokes, counter), AllCalls(rest, counter + |b.invokes|), LastRest(rest),
                     counter + |b.invokes| + Count(rest));
    } else {
      DrainLast(blocks, counter);
      QuietEvents(blocks[1..], counter + |blocks[0].invokes|);
      assert CallsOf(blocks[0].invokes, counter) + [] == CallsOf(blocks[0].invokes, counter);
    }
  }

  lemma {:induction false} PrependDrained(calls: seq<ToolCall>, more: seq<ToolCall>, rest: string, counter: nat)
    ensures Prepend(calls, Drained(more, rest, counter)) == Drained(calls + more, rest, counter)
  {
  }

  lemma {:induction false} HasInvokeIs(blocks: seq<Block>)
    requires HasInvoke(blocks)
    ensures blocks != []
    ensures forall counter: nat :: AllCalls(blocks, counter) != []
    decreases |blocks|
  {
    forall counter: nat
      ensures AllCalls(blocks, counter) != []
    {
      if blocks[0].invokes == [] {
        HasInvokeIs(blocks[1..]);
        assert AllCalls(blocks[1..], counter + |blocks[0].invokes|) != [];
      }
    }
  }

  lemma {:induction false} PartsOf(blocks: seq<Block>, counter: nat)
    requires blocks != []
    ensures var b, rest := blocks[0], blocks[1..];
            && AllCalls(blocks, counter) == CallsOf(b.invokes, counter) + AllCalls(rest, counter + |b.invokes|)
            && Count(blocks) == |b.invokes| + Count(rest)
            && (HasInvoke(rest) ==> rest != [] && LastRest(blocks) == LastRest(rest))
            && (!HasInvoke(rest) ==> LastRest(blocks) == b.end + (CLOSE + Closed(blocks)))
  {
    hide CallsOf, Closed;
  }

  /** The text between two blocks is passed over when an invoke follows. */
  lemma {:induction false} DrainOver(blocks: seq<Block>, counter: nat)
    requires blocks != [] && GoodBlocks(blocks) && blocks[1..] != []
    requires Drain(Opened(blocks[1..]), counter + |blocks[0].invokes|).calls != []
    ensures var b := blocks[0];
            Drain(Opened(blocks), counter)
            == Prepend(CallsOf(b.invokes, counter), Drain(Opened(blocks[1..]), counter + |b.invokes|))
  {
    hide *;
    GoodFirst(blocks);
    var b, y := blocks[0], Opened(blocks[1..]);
    var c := counter + |b.invokes|;
    OpenedIs(blocks);
    OpenedIs(blocks[1..]);
    GapRegroups(RenderBlock(b.invokes, b.end), b.after, y);
    DrainUpTo(b.invokes, b.end, CLOSE + (b.after + (OPEN + y)), counter);
    var g := b.end + (CLOSE + (b.after + OPEN));
    GapInFront(b.end, b.after, y);
    NoInvokeInProse(b.end, b.after, y);
    SkipGap(g, y, c);
    CallsComplete(y, c);
  }

  lemma {:induction false} CallsComplete(y: string, counter: nat)
    requires Drain(y, counter).calls != []
    ensures InvokeEnd(y) != -1
  {
    hide InvokeEnd;
  }

  lemma {:induction false} GapRegroups(block: string, t: string, y: string)
    ensures block + CLOSE + (t + (OPEN + y)) == block + (CLOSE + (t + (OPEN + y)))
  {
  }

  lemma {:induction false} GapInFront(end: string, t: string, y: string)
    ensures end + (CLOSE + (t + (OPEN + y))) == end + (CLOSE + (t + OPEN)) + y
  {
  }

  lemma {:induction false} NoInvokeInProse(end: string, t: string, y: string)
    requires Plain(end) && Prose(t)
    ensures forall i :: 0 <= i < |end + (CLOSE + (t + OPEN))| ==> !At(end + (CLOSE + (t + OPEN)) + y, INVOKE_OPEN, i)
  {
    TagsAreSegments();
    assert CLOSE[0] == '<' && OPEN[0] == '<';
    assert AtTag(OPEN + y) && AtTag(CLOSE + (t + OPEN) + y);
    hide *;
    ProseHasNoTags(t);
    NotInPlain(end);
    NoInvokeInTag(OPEN, y);
    NoneAcross(t, OPEN + y, INVOKE_OPEN);
    NoneInEither(t, OPEN, y, INVOKE_OPEN);
    NoInvokeInTag(CLOSE, t + OPEN + y);
    NoneInEither(CLOSE, t + OPEN, y, INVOKE_OPEN);
    NoneAcross(end, CLOSE + (t + OPEN) + y, INVOKE_OPEN);
    NoneInEither(end, CLOSE + (t + OPEN), y, INVOKE_OPEN);
  }

  // ---------- the turns of a push ----------

  /** Inside a block of which nothing has arrived. */
  function Inside(counter: nat): State {
    State("", Some(""), counter)
  }

  lemma {:induction false} IdleOpens(w: string, before: string, m: string, counter: nat)
    requires Normalize(w) == before + (OPEN + m) && Prose(before)
    ensures OneTurn(Idle(counter), w) == Again(Inside(counter), m, Texts(before)) && Clean(m)
  {
    hide *;
    var s := before + (OPEN + m);
    OpensBehind(before, m);
    NormalizeClean(w);
    CleanBehind(s, OPEN, |before|);
    OpeningTurn(w, s, |before|, counter);
    SliceTo(before, OPEN, m);
    TakeFront(before, OPEN + m);
    JoinLength(before, OPEN);
  }

  lemma {:induction false} JoinLength(a: string, b: string)
    ensures |a + b| == |a| + |b|
  {
  }

  lemma {:induction false} OpensBehind(before: string, m: string)
    requires Prose(before)
    ensures Find(before + (OPEN + m), OPEN) == |before|
  {
    assert AtTag(OPEN + m) && Segment(OPEN) by { TagsAreSegments(); assert OPEN[0] == '<'; }
    hide *;
    ProseHasNoTags(before);
    NoneAcross(before, OPEN + m, OPEN);
    FindSkip(before, OPEN + m, OPEN);
    OpensAtOnce(m);
  }

  lemma {:induction false} OpeningTurn(w: string, s: string, pos: nat, counter: nat)
    requires s == Normalize(w) && Find(s, OPEN) == pos
    ensures pos + |OPEN| <= |s|
    ensures OneTurn(Idle(counter), w) == Again(Inside(counter), s[pos + |OPEN|..], Texts(s[..pos]))
  {
    hide Normalize, Find, Texts;
    FindBounds(s, OPEN);
    assert "" + w == w;
  }

  lemma {:induction false} InsideCloses(m: string, counter: nat, end: string, tail: string)
    requires Clean(m) && Plain(end) && Drain(m, counter).rest == end + (CLOSE + tail)
    ensures var d := Drain(m, counter);
            OneTurn(Inside(counter), m) == Again(Idle(d.counter), tail, Calls(d.calls)) && Clean(tail)
  {
    assert CLOSE[0] == '<';
    hide Normalize, Find, Drain, Calls;
    var d := Drain(m, counter);
    Assoc(end, CLOSE, tail);
    FindBehind(end, CLOSE, tail);
    CleanRest(m, counter);
    CleanBehind(d.rest, CLOSE, |end|);
    assert "" + m == m;
  }

  lemma {:induction false} IdleShows(t: string, counter: nat)
    requires Prose(t) && Clean(t)
    ensures OneTurn(Idle(counter), t) == Done(Idle(counter), Texts(t))
  {
    ProseHasNoTags(t);
    assert HoldOpen(t) == 0;
    hide Normalize, Find, HoldOpen, Texts, Prose;
    assert "" + t == t && t[..|t|] == t && t[|t|..] == "";
  }

  lemma {:induction false} SeenAgain(st: State, w: string, st': State, pending: string, out: seq<Item>)
    requires WellFormed(st) && WellFormed(st') && OneTurn(st, w) == Again(st', pending, out)
    ensures Seen(st, [w]) == Events(out) + Seen(st', [pending])
  {
    hide OneTurn, Push, Events, Finish, Seen;
    SeenOnce(st, w);
    SeenOnce(st', pending);
    PushAgain(st, w, st', pending, out);
    EventsAppend(out, Push(st', pending).out);
    Assoc(Events(out), Events(Push(st', pending).out), Events(Finish(Push(st', pending).st)));
  }

  lemma {:induction false} PushAgain(st: State, w: string, st': State, pending: string, out: seq<Item>)
    requires WellFormed(st) && WellFormed(st') && OneTurn(st, w) == Again(st', pending, out)
    ensures Push(st, w) == Pushed(Push(st', pending).st, out + Push(st', pending).out)
  {
    hide OneTurn;
  }

  // ---------- the stream in one chunk ----------

  /** One chunk shows all calls, and of the text the first and what follows the last invoke: all
      text between two blocks in front of that invoke is lost. */
  lemma {:induction false} InOneChunk(w: string, before: string, blocks: seq<Block>, counter: nat)
    requires Spells(w, before, blocks)
    ensures Seen(Idle(counter), [w])
         == Chars(before) + (CallEvents(AllCalls(blocks, counter)) + Chars(KeptText(blocks)))
  {
    hide *;
    SpellsIs(w, before, blocks);
    if blocks == [] {
      ConcatOne(w);
      QuietIsQuiet(blocks);
      SeamlessStream([w], before, blocks, counter);
      QuietEvents(blocks, counter);
      NothingKept(blocks);
    } else {
      OpenedIs(blocks);
      IdleOpens(w, before, Opened(blocks), counter);
      StatesAre(counter);
      SeenAgain(Idle(counter), w, Inside(counter), Opened(blocks), Texts(before));
      EventsTexts(before);
      InsideOneChunk(blocks, counter);
    }
  }

  lemma {:induction false} QuietIsQuiet(blocks: seq<Block>)
    requires blocks == []
    ensures !HasInvoke(blocks) && Seamless(blocks)
  {
  }

  lemma {:induction false} NothingKept(blocks: seq<Block>)
    requires blocks == []
    ensures KeptText(blocks) == AllText(blocks) == "" && CallEvents([]) + Chars("") == Chars("")
  {
  }

  lemma {:induction false} StatesAre(counter: nat)
    ensures WellFormed(Idle(counter)) && WellFormed(Inside(counter)) && Idle(0) == START
  {
  }

  lemma {:induction false} InsideOneChunk(blocks: seq<Block>, counter: nat)
    requires blocks != [] && GoodBlocks(blocks) && Clean(Opened(blocks))
    ensures Seen(Inside(counter), [Opened(blocks)]) == CallEvents(AllCalls(blocks, counter)) + Chars(KeptText(blocks))
  {
    hide *;
    var last, calls, c := LastBlocks(blocks), AllCalls(blocks, counter), counter + Count(blocks);
    DrainAll(blocks, counter);
    LastIsGood(blocks);
    GoodFirst(last);
    LastRestIs(blocks);
    InsideCloses(Opened(blocks), counter, last[0].end, Closed(last));
    StatesAre(counter);
    StatesAre(c);
    SeenAgain(Inside(counter), Opened(blocks), Idle(c), Closed(last), Calls(calls));
    EventsCalls(calls);
    LastShows(last, c);
  }

  lemma {:induction false} LastRestIs(blocks: seq<Block>)
    requires blocks != []
    ensures LastRest(blocks) == LastBlocks(blocks)[0].end + (CLOSE + Closed(LastBlocks(blocks)))
    ensures KeptText(blocks) == AllText(LastBlocks(blocks))
  {
    hide LastBlocks, Closed;
  }

  lemma {:induction false} LastShows(last: seq<Block>, counter: nat)
    requires last != [] && GoodBlocks(last) && !HasInvoke(last[1..]) && Clean(Closed(last))
    ensures Seen(Idle(counter), [Closed(last)]) == Chars(AllText(last))
  {
    hide *;
    GoodFirst(last);
    OpenedIs(last);
    ConcatOne(Closed(last));
    CleanSpells(Closed(last), last[0].after, last[1..]);
    QuietIsSeamless(last[1..]);
    SeamlessStream([Closed(last)], last[0].after, last[1..], counter);
    QuietEvents(last[1..], counter);
    CharsAppend(last[0].after, AllText(last[1..]));
    AllTextIs(last);
  }

  lemma {:induction false} CleanSpells(w: string, before: string, blocks: seq<Block>)
    requires Clean(w) && w == before + Rendered(blocks) && Prose(before) && GoodBlocks(blocks)
    ensures Spells(w, before, blocks)
  {
    hide Normalize, Rendered, Prose, GoodBlocks;
  }

  lemma {:induction false} AllTextIs(blocks: seq<Block>)
    requires blocks != []
    ensures AllText(blocks) == blocks[0].after + AllText(blocks[1..])
  {
  }

  // ---------- the stream block by block ----------

  /** One block and the text around it, pushed on its own. */
  lemma {:induction false} PushBlock(a: string, before: string, b: Block, counter: nat)
    requires Normalize(a) == before + Rendered([b]) && Prose(before) && GoodBlocks([b])
    ensures Push(Idle(counter), a)
         == Pushed(Idle(counter + |b.invokes|), Texts(before) + (Calls(CallsOf(b.invokes, counter)) + Texts(b.after)))
  {
    hide *;
    var one, c := [b], counter + |b.invokes|;
    OneBlockParts(b);
    OpenedIs(one);
    GoodFirst(one);
    IdleOpens(a, before, Opened(one), counter);
    DrainLast(one, counter);
    InsideCloses(Opened(one), counter, b.end, b.after);
    IdleShows(b.after, c);
    StatesAre(counter);
    StatesAre(c);
    PushAgain(Idle(counter), a, Inside(counter), Opened(one), Texts(before));
    PushAgain(Inside(counter), Opened(one), Idle(c), b.after, Calls(CallsOf(b.invokes, counter)));
    PushDone(Idle(c), b.after);
  }

  lemma {:induction false} OneBlockParts(b: Block)
    ensures ([b])[1..] == [] && !HasInvoke([]) && Closed([b]) == b.after
  {
    hide RenderBlock;
    assert [b][1..] == [];
    assert Closed([b]) == b.after + "" == b.after;
  }

  lemma {:induction false} PushDone(st: State, w: string)
    requires WellFormed(st) && OneTurn(st, w).Done?
    ensures Push(st, w) == Pushed(OneTurn(st, w).st, OneTurn(st, w).out)
  {
    hide OneTurn;
  }

  /** Cut behind every block, the stream shows every text in its place. */
  lemma {:induction false} BlockByBlock(w: string, before: string, blocks: seq<Block>, counter: nat)
    returns (chunks: seq<string>)
    requires Spells(w, before, blocks)
    ensures Concat(chunks) == w
    ensures Seen(Idle(counter), chunks) == Chars(before) + BlockEvents(blocks, counter)
    decreases |blocks|
  {
    hide *;
    SpellsIs(w, before, blocks);
    if |blocks| <= 1 {
      chunks := [w];
      ConcatOne(w);
      ShortIsSeamless(blocks);
      SeamlessStream(chunks, before, blocks, counter);
    } else {
      var b, rest := blocks[0], blocks[1..];
      GoodFirst(blocks);
      FirstAlone(blocks);
      RenderedAtTag(rest);
      Assoc(before, Rendered([b]), Rendered(rest));
      var a, w' := CutSpelling(w, before + Rendered([b]), Rendered(rest));
      PushBlock(a, before, b, counter);
      var c := counter + |b.invokes|;
      NothingIsProse();
      assert "" + Rendered(rest) == Rendered(rest);
      SpellsIs(w', "", rest);
      var chunks' := BlockByBlock(w', "", rest, c);
      chunks := [a] + chunks';
      StatesAre(counter);
      ConcatCons(a, chunks');
      SeenOnwards(Idle(counter), a, chunks');
      BlockEventsIs(blocks, counter);
      BlockShown(before, CallsOf(b.invokes, counter), b.after, BlockEvents(rest, c));
    }
  }

  lemma {:induction false} ConcatCons(a: string, chunks: seq<string>)
    ensures Concat([a] + chunks) == a + Concat(chunks)
  {
    var all := [a] + chunks;
    assert all[0] == a && all[1..] == chunks;
  }

  lemma {:induction false} NothingIsProse()
    ensures Prose("")
  {
    PlainShows("");
    assert OPENER != [] && CLOSER != [];
  }

  lemma {:induction false} BlockShown(before: string, calls: seq<ToolCall>, after: string, more: seq<Event>)
    ensures Events(Texts(before) + (Calls(calls) + Texts(after))) + (Chars("") + more)
         == Chars(before) + (CallEvents(calls) + (Chars(after) + more))
  {
    hide Events, Texts, Calls, CallEvents, Chars;
    EventsAppend(Texts(before), Calls(calls) + Texts(after));
    EventsAppend(Calls(calls), Texts(after));
    EventsTexts(before);
    EventsTexts(after);
    EventsCalls(calls);
    NoChars(more);
    assert Chars(before) + (CallEvents(calls) + Chars(after)) + more
        == Chars(before) + (CallEvents(calls) + (Chars(after) + more));
  }

  lemma {:induction false} ShortIsSeamless(blocks: seq<Block>)
    requires |blocks| <= 1
    ensures Seamless(blocks)
  {
  }

  lemma {:induction false} FirstAlone(blocks: seq<Block>)
    requires |blocks| > 1 && GoodBlocks(blocks)
    ensures var b := blocks[0];
            Rendered(blocks) == Rendered([b]) + Rendered(blocks[1..]) && GoodBlocks([b])
  {
    hide *;
    var b := blocks[0];
    GoodFirst(blocks);
    OneBlockParts(b);
    OpenedIs([b]);
    OpenedIs(blocks);
    GoodAlone(b);
    var block := RenderBlock(b.invokes, b.end);
    assert OPEN + (block + CLOSE + (b.after + Rendered(blocks[1..])))
        == OPEN + (block + CLOSE + b.after) + Rendered(blocks[1..]);
  }

  lemma {:induction false} GoodAlone(b: Block)
    requires GoodInvokes(b.invokes) && Plain(b.end) && Prose(b.after)
    ensures GoodBlocks([b])
  {
    hide GoodInvokes, Prose;
    assert [b][1..] == [];
    assert GoodBlocks([]);
  }

  // ---------- when the two agree ----------

  /** How many events one chunk loses. */
  function Lost(blocks: seq<Block>): nat {
    if blocks == [] || !HasInvoke(blocks[1..]) then 0 else |blocks[0].after| + Lost(blocks[1..])
  }

  lemma {:induction false} LostIs(blocks: seq<Block>, counter: nat)
    ensures |BlockEvents(blocks, counter)| == |AllCalls(blocks, counter)| + |KeptText(blocks)| + Lost(blocks)
    ensures Lost(blocks) == 0 <==> Seamless(blocks)
    decreases |blocks|
  {
    hide CallsOf;
    if blocks != [] {
      var c := counter + |blocks[0].invokes|;
      if HasInvoke(blocks[1..]) {
        LostIs(blocks[1..], c);
        assert KeptText(blocks) == KeptText(blocks[1..]);
      } else {
        QuietEvents(blocks[1..], c);
        QuietIsSeamless(blocks[1..]);
      }
    }
  }

  /** All chunkings of a stream of well-formed blocks agree exactly when no text between two blocks
      is followed by a block with an invoke; they then agree on every call and every text in its place. */
  lemma {:induction false} BlocksCutIff(w: string, before: string, blocks: seq<Block>)
    requires Spells(w, before, blocks)
    ensures CutsAgree(w) <==> Seamless(blocks)
    ensures CutsAgree(w) ==> Seen(START, [w]) == Chars(before) + BlockEvents(blocks, 0)
  {
    hide *;
    StatesAre(0);
    ConcatOne(w);
    if Seamless(blocks) {
      SeamlessStream([w], before, blocks, 0);
      SeamlessCutsAgree(w, before, blocks);
    } else {
      var chunks := BlockByBlock(w, before, blocks, 0);
      InOneChunk(w, before, blocks, 0);
      LostIs(blocks, 0);
      LengthsDiffer(before, BlockEvents(blocks, 0), AllCalls(blocks, 0), KeptText(blocks));
      TwoDiffer(w, chunks, [w]);
    }
  }

  lemma {:induction false} SeamlessCutsAgree(w: string, before: string, blocks: seq<Block>)
    requires Spells(w, before, blocks) && Seamless(blocks)
    ensures CutsAgree(w)
  {
    hide Spells, Seamless, Seen, BlockEvents, Chars;
    ConcatOne(w);
    forall chunks | Concat(chunks) == w
      ensures Seen(START, chunks) == Seen(START, [w])
    {
      SeamlessStream(chunks, before, blocks, 0);
      SeamlessStream([w], before, blocks, 0);
    }
  }

  lemma {:induction false} LengthsDiffer(before: string, events: seq<Event>, calls: seq<ToolCall>, kept: string)
    requires |events| > |calls| + |kept|
    ensures Chars(before) + events != Chars(before) + (CallEvents(calls) + Chars(kept))
  {
    assert |Chars(before) + events| > |Chars(before) + (CallEvents(calls) + Chars(kept))|;
  }
}
