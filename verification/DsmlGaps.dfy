/** Streams of well-formed tool-call blocks with text around them: what every chunking shows of them,
    and exactly when it is the same. */
module DsmlGaps {
  import opened Text
  import opened DsmlMarkers
  import opened Dsml
  import opened DsmlStreaming
  import opened DsmlSafety
  import opened DsmlChains
  import opened DsmlCuts
  import opened DsmlInvokes

  /** A block and the text behind it. */
  datatype Block = Block(invokes: seq<Invoke>, end: string, after: string)

  /** Text without tool-call tags that does not end inside one. */
  ghost predicate Prose(t: string) {
    !Occurs(t, OPENER) && !Occurs(t, CLOSER) && HoldOpen(t) == 0
  }

  ghost predicate GoodBlocks(blocks: seq<Block>) {
    blocks == [] ||
    var b := blocks[0];
    GoodInvokes(b.invokes) && Plain(b.end) && Prose(b.after) && GoodBlocks(blocks[1..])
  }

  function Rendered(blocks: seq<Block>): string
    decreases |blocks|, 2
  {
    if blocks == [] then "" else OPEN + Opened(blocks)
  }

  /** What stands behind the opening tag of the first block. */
  function Opened(blocks: seq<Block>): string
    requires blocks != []
    decreases |blocks|, 1
  {
    RenderBlock(blocks[0].invokes, blocks[0].end) + CLOSE + Closed(blocks)
  }

  /** What stands behind the closing tag of the first block. */
  function Closed(blocks: seq<Block>): string
    requires blocks != []
    decreases |blocks|, 0
  {
    blocks[0].after + Rendered(blocks[1..])
  }

  function HasInvoke(blocks: seq<Block>): bool {
    blocks != [] && (blocks[0].invokes != [] || HasInvoke(blocks[1..]))
  }

  /** No text between two blocks, unless only blocks without invokes follow. */
  predicate Seamless(blocks: seq<Block>) {
    blocks == [] || ((blocks[0].after == "" || !HasInvoke(blocks[1..])) && Seamless(blocks[1..]))
  }

  /** The calls of each block, and the text behind it. */
  function BlockEvents(blocks: seq<Block>, counter: nat): seq<Event> {
    if blocks == [] then []
    else
      var b := blocks[0];
      CallEvents(CallsOf(b.invokes, counter)) + (Chars(b.after) + BlockEvents(blocks[1..], counter + |b.invokes|))
  }

  // ---------- prose ----------

  lemma {:induction false} NoneStartsWith(t: string, p: string, c: string)
    requires c <= p && !Occurs(t, c)
    ensures Find(t, p) == -1
  {
    var i := Find(t, p);
    if i != -1 {
      AtPrefixOf(t, p, c, i);
    }
  }

  lemma {:induction false} ProseHasNoTags(t: string)
    requires Prose(t)
    ensures Find(t, OPEN) == -1 && Find(t, INVOKE_OPEN) == -1 && Find(t, INVOKE_CLOSE) == -1
  {
    assert OPENER <= OPEN && OPENER <= INVOKE_OPEN && CLOSER <= INVOKE_CLOSE;
    NoneStartsWith(t, OPEN, OPENER);
    NoneStartsWith(t, INVOKE_OPEN, OPENER);
    NoneStartsWith(t, INVOKE_CLOSE, CLOSER);
  }

  lemma {:induction false} RenderedAtTag(blocks: seq<Block>)
    ensures AtTag(Rendered(blocks))
    ensures blocks != [] ==> Rendered(blocks) != [] && Rendered(blocks)[0] == '<'
  {
    if blocks != [] {
      hide Opened;
      assert OPEN[0] == '<';
      assert Rendered(blocks)[0] == OPEN[0];
    }
  }

  lemma {:induction false} GoodFirst(blocks: seq<Block>)
    requires blocks != [] && GoodBlocks(blocks)
    ensures var b := blocks[0];
            GoodInvokes(b.invokes) && Plain(b.end) && Prose(b.after) && GoodBlocks(blocks[1..])
  {
    hide GoodInvokes, Prose;
  }

  // ---------- the parts of a stream ----------

  /** The first block closes behind its own text. */
  lemma {:induction false} FirstCloses(blocks: seq<Block>)
    requires blocks != [] && GoodBlocks(blocks)
    ensures var block, m := RenderBlock(blocks[0].invokes, blocks[0].end), Opened(blocks);
            && m == block + CLOSE + Closed(blocks)
            && Find(m, CLOSE) == |block| && |block| + |CLOSE| <= |m|
            && m[..|block|] == block && m[|block| + |CLOSE|..] == Closed(blocks)
  {
    GoodFirst(blocks);
    hide *;
    var b := blocks[0];
    NoneInBlock(b.invokes, b.end, CLOSE + Closed(blocks));
    OpenedIs(blocks);
    FindAfterNone(RenderBlock(b.invokes, b.end), CLOSE, Closed(blocks));
    Slices(RenderBlock(b.invokes, b.end), CLOSE, Closed(blocks));
  }

  lemma {:induction false} OpenedIs(blocks: seq<Block>)
    requires blocks != []
    ensures Opened(blocks) == RenderBlock(blocks[0].invokes, blocks[0].end) + CLOSE + Closed(blocks)
    ensures Closed(blocks) == blocks[0].after + Rendered(blocks[1..])
    ensures Rendered(blocks) == OPEN + Opened(blocks)
  {
    hide RenderBlock, Rendered;
    assert Rendered(blocks) == OPEN + Opened(blocks) by {
      hide Opened;
      RenderedIs(blocks);
    }
  }

  lemma {:induction false} RenderedIs(blocks: seq<Block>)
    requires blocks != []
    ensures Rendered(blocks) == OPEN + Opened(blocks)
  {
    hide Opened;
  }

  lemma {:induction false} Slices(a: string, m: string, t: string)
    ensures (a + m + t)[..|a|] == a && (a + m + t)[|a| + |m|..] == t
  {
  }

  lemma {:induction false} OpensAtOnce(m: string)
    ensures Find(OPEN + m, OPEN) == 0 && (OPEN + m)[0 + |OPEN|..] == m && (OPEN + m)[..0] == ""
  {
    assert At(OPEN + m, OPEN, 0);
  }

  // ---------- the meaning of a stream ----------

  lemma {:induction false} ProseAcross(t: string, blocks: seq<Block>, counter: nat)
    requires Prose(t)
    ensures TextMeaning(t + Rendered(blocks), counter) == Chars(t) + TextMeaning(Rendered(blocks), counter)
    ensures SafeText(t + Rendered(blocks)) <==> SafeText(Rendered(blocks))
    ensures forall y: string :: InBlock(false, t + y) == InBlock(false, y)
  {
    hide TextMeaning, SafeText, Rendered, InBlock;
    ProseHasNoTags(t);
    MeaningAcross(t, Rendered(blocks), counter);
    SafeAcross(t, Rendered(blocks));
    forall y: string
      ensures InBlock(false, t + y) == InBlock(false, y)
    {
      TextOpensNothing(t, y);
    }
  }

  lemma {:induction false} MeaningOfRendered(blocks: seq<Block>, counter: nat)
    requires GoodBlocks(blocks)
    ensures TextMeaning(Rendered(blocks), counter) == BlockEvents(blocks, counter)
    decreases |blocks|
  {
    hide *;
    BlockEventsIs(blocks, counter);
    if blocks == [] {
      NothingMeant(counter);
    } else {
      GoodFirst(blocks);
      MeaningOfFirst(blocks, counter);
      var b := blocks[0];
      var c := counter + |b.invokes|;
      OpenedIs(blocks);
      ProseAcross(b.after, blocks[1..], c);
      MeaningOfRendered(blocks[1..], c);
    }
  }

  lemma {:induction false} BlockEventsIs(blocks: seq<Block>, counter: nat)
    ensures blocks == [] ==> BlockEvents(blocks, counter) == [] && Rendered(blocks) == ""
    ensures blocks != [] ==>
              var b := blocks[0];
              BlockEvents(blocks, counter)
              == CallEvents(CallsOf(b.invokes, counter)) + (Chars(b.after) + BlockEvents(blocks[1..], counter + |b.invokes|))
  {
    hide CallEvents, CallsOf, Chars, Opened;
  }

  lemma {:induction false} NothingMeant(counter: nat)
    ensures TextMeaning("", counter) == []
  {
    PlainShows("");
    hide HoldOpen;
    assert Chars("") == [];
  }

  lemma {:induction false} MeaningOfFirst(blocks: seq<Block>, counter: nat)
    requires blocks != [] && GoodBlocks(blocks)
    ensures var b := blocks[0];
            TextMeaning(Rendered(blocks), counter)
            == CallEvents(CallsOf(b.invokes, counter)) + TextMeaning(Closed(blocks), counter + |b.invokes|)
  {
    hide *;
    OpenedIs(blocks);
    MeaningOfTag(Opened(blocks), counter);
    MeaningOfOpened(blocks, counter);
  }

  lemma {:induction false} MeaningOfTag(m: string, counter: nat)
    ensures TextMeaning(OPEN + m, counter) == BlockMeaning(m, counter)
  {
    hide *;
    OpensAtOnce(m);
    MeaningOfOpenedText(OPEN + m, counter, 0);
    NoChars(BlockMeaning(m, counter));
  }

  lemma {:induction false} MeaningOfOpened(blocks: seq<Block>, counter: nat)
    requires blocks != [] && GoodBlocks(blocks)
    ensures var b := blocks[0];
            BlockMeaning(Opened(blocks), counter)
            == CallEvents(CallsOf(b.invokes, counter)) + TextMeaning(Closed(blocks), counter + |b.invokes|)
  {
    hide *;
    GoodFirst(blocks);
    var b := blocks[0];
    FirstCloses(blocks);
    MeaningOfClosedBlock(Opened(blocks), counter, |RenderBlock(b.invokes, b.end)|);
    DrainBlock(b.invokes, b.end, counter);
  }

  lemma {:induction false} NoChars(e: seq<Event>)
    ensures Chars("") + e == e
  {
  }

  // ---------- seamless streams are safe ----------

  lemma {:induction false} NoInvokeCloseInTag(tag: string, y: string)
    requires tag == OPEN || tag == CLOSE
    ensures forall i :: 0 <= i < |tag| ==> !At(tag + y, INVOKE_CLOSE, i)
  {
    TagsAreSegments();
    var s := tag + y;
    forall i | 0 <= i < |tag|
      ensures !At(s, INVOKE_CLOSE, i)
    {
      AtChar(s, INVOKE_CLOSE, i, 0);
      AtChar(s, INVOKE_CLOSE, 0, 1);
      AtChar(s, INVOKE_CLOSE, 0, 8);
      assert s[i] == tag[i] && s[1] == tag[1] && s[8] == tag[8];
      if i > 0 {
        SegmentChar(tag, i);
      }
    }
  }

  lemma {:induction false} TagEnds(tag: string, y: string)
    requires (tag == OPEN || tag == CLOSE) && Find(y, INVOKE_CLOSE) == -1
    ensures Find(tag + y, INVOKE_CLOSE) == -1
  {
    hide Find;
    NoInvokeCloseInTag(tag, y);
    FindSkip(tag, y, INVOKE_CLOSE);
  }

  lemma {:induction false} TextEnds(t: string, y: string, p: string)
    requires Segment(p) && AtTag(y) && Find(t, p) == -1 && Find(y, p) == -1
    ensures Find(t + y, p) == -1
  {
    hide Find;
    NoneAcross(t, y, p);
    FindSkip(t, y, p);
  }

  lemma {:induction false} NoInvokesLeft(blocks: seq<Block>)
    requires GoodBlocks(blocks) && !HasInvoke(blocks)
    ensures Find(Rendered(blocks), INVOKE_CLOSE) == -1
    ensures blocks != [] ==> Find(Closed(blocks), INVOKE_CLOSE) == -1
    decreases |blocks|
  {
    TagsAreSegments();
    if blocks == [] {
      assert INVOKE_CLOSE != [];
    } else {
      var b := blocks[0];
      assert b.invokes == [] && !HasInvoke(blocks[1..]);
      assert RenderBlock(b.invokes, b.end) == b.end;
      assert INVOKE_CLOSE[0] == '<' && CLOSE[0] == '<';
      assert AtTag(CLOSE + Closed(blocks));
      GoodFirst(blocks);
      hide *;
      NoInvokesLeft(blocks[1..]);
      ProseHasNoTags(b.after);
      RenderedAtTag(blocks[1..]);
      OpenedIs(blocks);
      TextEnds(b.after, Rendered(blocks[1..]), INVOKE_CLOSE);
      TagEnds(CLOSE, Closed(blocks));
      NotInPlain(b.end);
      TextEnds(b.end, CLOSE + Closed(blocks), INVOKE_CLOSE);
      Assoc(b.end, CLOSE, Closed(blocks));
      TagEnds(OPEN, Opened(blocks));
    }
  }

  lemma {:induction false} NotInPlain(t: string)
    requires Plain(t)
    ensures Find(t, INVOKE_CLOSE) == -1 && Find(t, INVOKE_OPEN) == -1
  {
    InvokeTagsAreSegments();
    NotIn(t, INVOKE_CLOSE);
    NotIn(t, INVOKE_OPEN);
  }

  lemma {:induction false} SeamlessIsSafe(blocks: seq<Block>)
    requires GoodBlocks(blocks) && Seamless(blocks)
    ensures SafeText(Rendered(blocks))
    decreases |blocks|
  {
    if blocks == [] {
      assert OPEN != [];
      assert Find("", OPEN) == -1;
    } else {
      var b := blocks[0];
      GoodFirst(blocks);
      assert Seamless(blocks[1..]);
      SeamlessIsSafe(blocks[1..]);
      hide *;
      ProseAcross(b.after, blocks[1..], 0);
      OpenedIs(blocks);
      RestIsSafe(blocks);
      OpensAtOnce(Opened(blocks));
      SafeIfRest(OPEN + Opened(blocks), 0);
    }
  }

  lemma {:induction false} RestIsSafe(blocks: seq<Block>)
    requires blocks != [] && GoodBlocks(blocks) && Seamless(blocks) && SafeText(Closed(blocks))
    ensures SafeRest(Opened(blocks))
  {
    GoodFirst(blocks);
    FirstCloses(blocks);
    var b := blocks[0];
    DrainBlock(b.invokes, b.end, 0);
    NotInPlain(b.end);
    if HasInvoke(blocks[1..]) {
      hide GoodBlocks, GoodInvokes, Prose, SafeText, RenderBlock, Drain, Find;
      RenderedIs(blocks[1..]);
      assert Closed(blocks) == Rendered(blocks[1..]);
      assert OPEN <= Closed(blocks);
    } else {
      CloserFree(blocks);
      hide GoodBlocks, GoodInvokes, Prose, SafeText, RenderBlock, Drain, Find, Closed;
    }
  }

  lemma {:induction false} CloserFree(blocks: seq<Block>)
    requires blocks != [] && GoodBlocks(blocks) && !HasInvoke(blocks[1..])
    ensures !Occurs(Closed(blocks), INVOKE_CLOSE)
  {
    TagsAreSegments();
    GoodFirst(blocks);
    hide GoodBlocks, HasInvoke, Prose, Rendered;
    NoInvokesLeft(blocks[1..]);
    ProseHasNoTags(blocks[0].after);
    RenderedAtTag(blocks[1..]);
    TextEnds(blocks[0].after, Rendered(blocks[1..]), INVOKE_CLOSE);
  }
}
