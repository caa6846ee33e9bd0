/** What a consumer of the DSML filter sees, and what the two stages of the filter do to it:
    holding back text outside a block, and draining invokes inside one. */
module DsmlStreaming {
  import opened Options
  import opened Text
  import opened DsmlMarkers
  import opened Dsml

  /** What a consumer observes: the visible characters and the calls, in order. */
  datatype Event = Shown(c: char) | Called(call: ToolCall)

  function Chars(s: string): seq<Event> {
    seq(|s|, i requires 0 <= i < |s| => Shown(s[i]))
  }

  function CallEvents(calls: seq<ToolCall>): seq<Event> {
    seq(|calls|, i requires 0 <= i < |calls| => Called(calls[i]))
  }

  function ItemEvents(item: Item): seq<Event> {
    match item
    case Words(t) => Chars(t)
    case Call(c) => [Called(c)]
  }

  function Events(items: seq<Item>): seq<Event> {
    if items == [] then [] else ItemEvents(items[0]) + Events(items[1..])
  }

  // ---------- the reference meaning of a normalised stream ----------

  /** Outside a block: show text up to the opening tag; an unfinished tag at the end is not shown. */
  function TextMeaning(n: string, counter: nat): seq<Event>
    decreases |n|
  {
    var p := Find(n, OPEN);
    if p == -1 then Chars(n[..|n| - HoldOpen(n)])
    else Chars(n[..p]) + BlockMeaning(n[p + |OPEN|..], counter)
  }

  /** Inside a block: the invokes before the closing tag are calls, nothing is shown. */
  function BlockMeaning(m: string, counter: nat): seq<Event>
    decreases |m|
  {
    var q := Find(m, CLOSE);
    if q == -1 then CallEvents(Drain(m, counter).calls)
    else
      var d := Drain(m[..q], counter);
      CallEvents(d.calls) + TextMeaning(m[q + |CLOSE|..], d.counter)
  }

  /** The meaning of what follows `st`. */
  function Meaning(st: State, input: string): seq<Event> {
    if st.capture.Some? then BlockMeaning(Normalize(st.capture.value + input), st.counter)
    else TextMeaning(Normalize(st.buf + input), st.counter)
  }

  /** What holds of the filter between pushes. */
  ghost predicate Quiescent(st: State) {
    WellFormed(st) && Clean(Held(st)) &&
    if st.capture.Some? then InvokeEnd(st.capture.value) == -1 && Find(st.capture.value, CLOSE) == -1
    else HoldOpen(st.buf) == |st.buf| && Find(st.buf, OPEN) == -1
  }

  // ---------- events ----------

  lemma {:induction false} EventsAppend(a: seq<Item>, b: seq<Item>)
    ensures Events(a + b) == Events(a) + Events(b)
  {
    hide ItemEvents;
    if a == [] {
      assert a + b == b;
    } else {
      EventsAppend(a[1..], b);
      assert (a + b)[1..] == a[1..] + b;
      Assoc(ItemEvents(a[0]), Events(a[1..]), Events(b));
    }
  }

  lemma {:induction false} EventsCalls(calls: seq<ToolCall>)
    ensures Events(Calls(calls)) == CallEvents(calls)
  {
    if calls != [] {
      EventsCalls(calls[1..]);
      assert Calls(calls)[1..] == Calls(calls[1..]);
    }
  }

  lemma {:induction false} EventsTexts(s: string)
    ensures Events(Texts(s)) == Chars(s)
  {
  }

  lemma {:induction false} CharsAppend(a: string, b: string)
    ensures Chars(a + b) == Chars(a) + Chars(b)
  {
  }

  lemma {:induction false} CallEventsAppend(a: seq<ToolCall>, b: seq<ToolCall>)
    ensures CallEvents(a + b) == CallEvents(a) + CallEvents(b)
  {
  }

  lemma {:induction false} PrependCalls(d: Drained, e: Drained)
    ensures CallEvents(Prepend(d.calls, e).calls) == CallEvents(d.calls) + CallEvents(e.calls)
    ensures Prepend(d.calls, e).counter == e.counter
  {
    CallEventsAppend(d.calls, e.calls);
  }

  lemma {:induction false} NoCallEvents(e: seq<Event>)
    ensures CallEvents([]) + e == e
  {
  }

  // ---------- holding back is exact ----------

  predicate HoldMarker(m: string) {
    m == OPEN || m == ASCII_OPEN || m == WIDE_OPEN || m == SHORT_OPEN
  }

  lemma {:induction false} HoldMarkerExact(s: string, m: string)
    requires HoldMarker(m)
    ensures Segment(m)
    ensures forall k :: EndsWithPrefix(s, m, k) <==> 0 < k == HoldSuffix(s, m)
    ensures HoldSuffix(s, m) > 0 ==> Segment(s[|s| - HoldSuffix(s, m)..])
    ensures HoldSuffix(s, m) <= HoldOpen(s)
  {
    TagsAreSegments();
    AliasesAreSegments();
    HoldSuffixExact(s, m);
  }

  /** The marker that `HoldOpen` found. */
  function HeldMarker(s: string): (m: string)
    ensures HoldMarker(m) && HoldSuffix(s, m) == HoldOpen(s)
  {
    if HoldSuffix(s, OPEN) == HoldOpen(s) then OPEN
    else if HoldSuffix(s, ASCII_OPEN) == HoldOpen(s) then ASCII_OPEN
    else if HoldSuffix(s, WIDE_OPEN) == HoldOpen(s) then WIDE_OPEN
    else SHORT_OPEN
  }

  /** The held length is the one length at which the text ends with an unfinished
      marker, if there is one: longest and shortest coincide. */
  lemma {:induction false} HoldOpenExact(s: string)
    ensures HoldOpen(s) > 0 ==> Segment(s[|s| - HoldOpen(s)..]) && EndsWithPrefix(s, HeldMarker(s), HoldOpen(s))
    ensures forall m, k: nat :: HoldMarker(m) && EndsWithPrefix(s, m, k) ==> k == HoldOpen(s)
  {
    HoldMarkerExact(s, HeldMarker(s));
    forall m, k: nat | HoldMarker(m) && EndsWithPrefix(s, m, k)
      ensures k == HoldOpen(s)
    {
      HoldMarkerExact(s, m);
      SameTag(s, k, HoldOpen(s));
    }
  }

  lemma {:induction false} SameTag(s: string, k: nat, k': nat)
    requires k <= |s| && k' <= |s| && Segment(s[|s| - k..]) && Segment(s[|s| - k'..])
    ensures k == k'
  {
    assert s[..|s| - k] + s[|s| - k..] == s == s[..|s| - k'] + s[|s| - k'..];
    LastTagUnique(s[..|s| - k], s[|s| - k..], s[..|s| - k'], s[|s| - k'..]);
  }

  lemma {:induction false} SegmentSuffix(t: string, k: nat)
    requires k <= |t| && Segment(t[|t| - k..])
    ensures !Plain(t)
  {
    assert t[|t| - k] == t[|t| - k..][0];
  }

  lemma {:induction false} PlainShows(t: string)
    requires Plain(t)
    ensures HoldOpen(t) == 0 && Find(t, OPEN) == -1
  {
    TagsAreSegments();
    AliasesAreSegments();
    NotIn(t, OPEN);
    HoldOpenExact(t);
    if HoldOpen(t) > 0 {
      SegmentSuffix(t, HoldOpen(t));
    }
  }

  // ---------- text outside a block ----------

  /** Nothing that starts in `e` can be completed by `rest`. */
  predicate Separated(e: string, rest: string) {
    (rest != [] && rest[0] == '<') || HoldOpen(e) == 0
  }

  lemma {:induction false} NoOpenAcross(e: string, rest: string)
    requires Separated(e, rest) && Find(e, OPEN) == -1
    ensures forall i :: 0 <= i < |e| ==> !At(e + rest, OPEN, i)
  {
    TagsAreSegments();
    forall i | 0 <= i < |e|
      ensures !At(e + rest, OPEN, i)
    {
      if At(e + rest, OPEN, i) {
        if i + |OPEN| <= |e| {
          AtLeft(e, rest, OPEN, i);
        } else if rest != [] && rest[0] == '<' {
          NoStraddle(e, rest, OPEN, i);
        } else {
          assert e[i..] == (e + rest)[i..i + |OPEN|][..|e| - i];
          assert EndsWithPrefix(e, OPEN, |e| - i);
          HoldOpenExact(e);
        }
      }
    }
  }

  lemma {:induction false} HoldAcross(e: string, rest: string)
    requires Separated(e, rest) && (rest == [] ==> HoldOpen(e) == 0)
    ensures HoldOpen(e + rest) == HoldOpen(rest)
  {
    var n := e + rest;
    HoldOpenExact(n);
    HoldOpenExact(rest);
    if HoldOpen(rest) > 0 {
      EndGrows(e, rest, HeldMarker(rest), HoldOpen(rest));
    }
    if HoldOpen(n) > 0 {
      HeldInside(e, rest);
      EndShrinks(e, rest, HeldMarker(n), HoldOpen(n));
    }
  }

  lemma {:induction false} EndGrows(e: string, rest: string, m: string, k: nat)
    requires EndsWithPrefix(rest, m, k)
    ensures EndsWithPrefix(e + rest, m, k)
  {
    assert (e + rest)[|e + rest| - k..] == rest[|rest| - k..];
  }

  lemma {:induction false} EndShrinks(e: string, rest: string, m: string, k: nat)
    requires EndsWithPrefix(e + rest, m, k) && k <= |rest|
    ensures EndsWithPrefix(rest, m, k)
  {
    assert (e + rest)[|e + rest| - k..] == rest[|rest| - k..];
  }

  /** What is held back of `e + rest` lies in `rest`. */
  lemma {:induction false} HeldInside(e: string, rest: string)
    requires Separated(e, rest) && HoldOpen(e + rest) > 0
    ensures HoldOpen(e + rest) <= |rest|
  {
    HoldOpenExact(e + rest);
    if |rest| < HoldOpen(e + rest) {
      NoEndAcross(e, rest, |e + rest| - HoldOpen(e + rest), HeldMarker(e + rest));
    }
  }

  lemma {:induction false} NoEndAcross(e: string, rest: string, i: nat, m: string)
    requires Separated(e, rest) && HoldMarker(m) && i < |e|
    ensures !EndsWithPrefix(e + rest, m, |e + rest| - i)
  {
    HoldMarkerExact(e, m);
    HoldOpenExact(e);
    var t := (e + rest)[i..];
    assert t[..|e| - i] == e[i..];
    if rest != [] && rest[0] == '<' && |t| < |m| {
      assert t[|e| - i] == '<';
      SegmentChar(m, |e| - i);
    } else if HoldOpen(e) == 0 {
      assert !EndsWithPrefix(e, m, |e| - i) && e[|e| - (|e| - i)..] == e[i..];
    }
  }

  lemma {:induction false} SliceAcross(a: string, b: string, i: nat, j: nat)
    requires i <= j <= |b|
    ensures (a + b)[..|a| + i] == a + b[..i] && (a + b)[|a| + j..] == b[j..]
  {
  }

  /** The meaning of text without an opening tag, spelled out. */
  lemma {:induction false} MeaningOfClosedText(n: string, counter: nat)
    requires Find(n, OPEN) == -1
    ensures TextMeaning(n, counter) == Chars(n[..|n| - HoldOpen(n)])
  {
    hide Find, HoldOpen, Chars;
  }

  /** The meaning of text with an opening tag, spelled out. */
  lemma {:induction false} MeaningOfOpenedText(n: string, counter: nat, p: nat)
    requires p == Find(n, OPEN)
    ensures p + |OPEN| <= |n|
    ensures TextMeaning(n, counter) == Chars(n[..p]) + BlockMeaning(n[p + |OPEN|..], counter)
  {
    hide Find, HoldOpen, Chars, BlockMeaning;
  }

  /** Plain text in front is shown as it stands. */
  lemma {:induction false} MeaningAcross(e: string, rest: string, counter: nat)
    requires Separated(e, rest) && (rest == [] ==> HoldOpen(e) == 0)
    requires Find(e, OPEN) == -1
    ensures TextMeaning(e + rest, counter) == Chars(e) + TextMeaning(rest, counter)
  {
    hide *;
    var n := e + rest;
    NoOpenAcross(e, rest);
    FindSkip(e, rest, OPEN);
    var p := Find(rest, OPEN);
    if p == -1 {
      HoldAcross(e, rest);
      var shown := |rest| - HoldOpen(rest);
      MeaningOfClosedText(rest, counter);
      MeaningOfClosedText(n, counter);
      SliceAcross(e, rest, shown, shown);
      CharsAppend(e, rest[..shown]);
    } else {
      MeaningOfOpenedText(rest, counter, p);
      MeaningOfOpenedText(n, counter, |e| + p);
      SliceAcross(e, rest, p, p + |OPEN|);
      CharsAppend(e, rest[..p]);
      Assoc(Chars(e), Chars(rest[..p]), BlockMeaning(rest[p + |OPEN|..], counter));
    }
  }

  lemma {:induction false} HeldIsFinal(s: string)
    requires Clean(s) && Find(s, OPEN) == -1
    ensures var h := s[|s| - HoldOpen(s)..];
            Clean(h) && HoldOpen(h) == |h| && Find(h, OPEN) == -1
  {
    hide Normalize;
    var k := HoldOpen(s);
    var e, h := s[..|s| - k], s[|s| - k..];
    assert s == e + h;
    HoldOpenExact(s);
    CleanHalves(e, h);
    if Find(h, OPEN) != -1 {
      AtRight(e, h, OPEN, |e| + Find(h, OPEN));
    }
    if k > 0 {
      assert h[|h| - k..] == h;
      assert EndsWithPrefix(h, HeldMarker(s), k);
      HoldOpenExact(h);
    }
  }

  // ---------- text inside a block ----------

  /** A complete invoke is found again however the text goes on. */
  lemma {:induction false} InvokeEndStable(a: string, b: string)
    requires InvokeEnd(a) != -1
    ensures InvokeStart(a + b) == InvokeStart(a) && InvokeEnd(a + b) == InvokeEnd(a)
  {
    FindStable(a, b, INVOKE_OPEN);
    var start := InvokeStart(a);
    assert (a + b)[start..] == a[start..] + b;
    FindStable(a[start..], b, INVOKE_CLOSE);
  }

  function Prepend(calls: seq<ToolCall>, d: Drained): Drained {
    Drained(calls + d.calls, d.rest, d.counter)
  }

  /** The part of a block that draining takes away. */
  function Consumed(m: string, counter: nat): string {
    m[..|m| - |Drain(m, counter).rest|]
  }

  function FirstCall(m: string, counter: nat): Option<ToolCall>
    requires InvokeEnd(m) != -1
  {
    ParseInvoke(m[InvokeStart(m)..InvokeEnd(m)], counter)
  }

  function CounterAfter(m: string, counter: nat): nat
    requires InvokeEnd(m) != -1
  {
    if FirstCall(m, counter).Some? then counter + 1 else counter
  }

  function CallList(call: Option<ToolCall>): seq<ToolCall> {
    if call.Some? then [call.value] else []
  }

  /** One drain step, spelled out. */
  lemma {:induction false} DrainStep(m: string, counter: nat)
    requires InvokeEnd(m) != -1
    ensures var rest := m[InvokeEnd(m)..];
            && Drain(m, counter) == Prepend(CallList(FirstCall(m, counter)), Drain(rest, CounterAfter(m, counter)))
            && Consumed(m, counter) == m[..InvokeEnd(m)] + Consumed(rest, CounterAfter(m, counter))
  {
    hide InvokeEnd, InvokeStart, ParseInvoke;
  }

  /** The first invoke is the same in every continuation of it. */
  lemma {:induction false} FirstCallStable(m: string, x: string, counter: nat)
    requires InvokeEnd(m) != -1
    ensures var s := m[..InvokeEnd(m)] + x;
            && InvokeEnd(s) == InvokeEnd(m) && s[InvokeEnd(s)..] == x
            && FirstCall(s, counter) == FirstCall(m, counter) && CounterAfter(s, counter) == CounterAfter(m, counter)
  {
    var end := InvokeEnd(m);
    InvokeEndPrefix(m, end);
    InvokeEndStable(m[..end], x);
    assert (m[..end] + x)[InvokeStart(m)..end] == m[InvokeStart(m)..end];
  }

  lemma {:induction false} PrependTwice(a: seq<ToolCall>, d: Drained, e: Drained)
    ensures Prepend(a, Prepend(d.calls, e)) == Prepend(Prepend(a, d).calls, e)
    ensures Prepend(a, d).counter == d.counter
  {
    Assoc(a, d.calls, e.calls);
  }

  /** Draining is the same whether the text arrives at once or after earlier drains. */
  lemma {:induction false} DrainResume(m: string, x: string, counter: nat)
    ensures Drain(Consumed(m, counter) + x, counter)
         == Prepend(Drain(m, counter).calls, Drain(x, Drain(m, counter).counter))
    decreases |m|
  {
    if InvokeEnd(m) == -1 {
      assert Consumed(m, counter) + x == x;
    } else {
      hide *;
      var end, counter' := InvokeEnd(m), CounterAfter(m, counter);
      var tail := Consumed(m[end..], counter');
      DrainStep(m, counter);
      FirstCallStable(m, tail + x, counter);
      var s := m[..end] + (tail + x);
      Assoc(m[..end], tail, x);
      DrainStep(s, counter);
      DrainResume(m[end..], x, counter');
      PrependTwice(CallList(FirstCall(m, counter)), Drain(m[end..], counter'), Drain(x, Drain(m, counter).counter));
    }
  }

  predicate EndsInvoke(done: string) {
    done == [] || (|done| >= |INVOKE_CLOSE| && done[|done| - |INVOKE_CLOSE|..] == INVOKE_CLOSE)
  }

  lemma {:induction false} EndsInvokeAppend(a: string, b: string)
    requires EndsInvoke(a) && EndsInvoke(b)
    ensures EndsInvoke(a + b)
  {
    if b == [] {
      assert a + b == a;
    } else {
      assert (a + b)[|a + b| - |INVOKE_CLOSE|..] == b[|b| - |INVOKE_CLOSE|..];
    }
  }

  lemma {:induction false} FirstInvokeEnds(m: string)
    requires InvokeEnd(m) != -1
    ensures EndsInvoke(m[..InvokeEnd(m)])
  {
    hide InvokeEnd;
    var end := InvokeEnd(m);
    assert m[..end][|m[..end]| - |INVOKE_CLOSE|..] == m[end - |INVOKE_CLOSE|..end];
  }

  lemma {:induction false} ConsumedEnds(m: string, counter: nat)
    ensures EndsInvoke(Consumed(m, counter))
    decreases |m|
  {
    if InvokeEnd(m) != -1 {
      hide *;
      DrainStep(m, counter);
      FirstInvokeEnds(m);
      ConsumedEnds(m[InvokeEnd(m)..], CounterAfter(m, counter));
      EndsInvokeAppend(m[..InvokeEnd(m)], Consumed(m[InvokeEnd(m)..], CounterAfter(m, counter)));
    }
  }

  lemma {:induction false} InvokeEndPrefix(m: string, end: nat)
    requires end == InvokeEnd(m)
    ensures InvokeStart(m[..end]) == InvokeStart(m) && InvokeEnd(m[..end]) == end
  {
    hide Find;
    var start := InvokeStart(m);
    var rel := Find(m[start..], INVOKE_CLOSE);
    FindPrefix(m, INVOKE_OPEN, end);
    assert m[..end][start..] == m[start..][..end - start];
    FindPrefix(m[start..], INVOKE_CLOSE, end - start);
  }

  /** Everything up to a complete marker is clean if the whole is. */
  lemma {:induction false} CleanUpTo(a: string, m: string, t: string)
    requires m in {OPEN, CLOSE, INVOKE_CLOSE}
    requires Clean(a + m + t)
    ensures Clean(a + m)
  {
    TagsAreSegments();
    hide Normalize, Head;
    var j := PlainPrefix(t);
    assert a + m + t == (a + (m + t[..j])) + t[j..];
    CleanHalves(a + (m + t[..j]), t[j..]);
    CleanHalves(a, m + t[..j]);
    NormalizeSplit(a, m);
    NormalizeSegment(m);
    HeadMarker(m, []);
    assert m + [] == m;
  }

  /** A suffix after a complete marker normalises on its own. */
  lemma {:induction false} SuffixAfter(a: string, m: string, t: string, v: string)
    requires m in {OPEN, CLOSE, INVOKE_CLOSE}
    requires Clean(a + m + t)
    ensures Normalize(a + m + t + v) == a + m + Normalize(t + v)
  {
    hide Normalize;
    CleanUpTo(a, m, t);
    CutMarker(a, m, t + v);
    assert a + m + t + v == a + m + (t + v);
  }

  /** What has been drained is a prefix of the normalised stream. */
  lemma {:induction false} DrainedIsPrefix(m: string, counter: nat, v: string)
    requires Clean(m)
    ensures Normalize(m + v) == Consumed(m, counter) + Normalize(Drain(m, counter).rest + v)
  {
    hide Normalize, Drain, Consumed;
    ConsumedEnds(m, counter);
    var done, rest := Consumed(m, counter), Drain(m, counter).rest;
    ConsumedSplit(m, counter);
    if done == [] {
      assert m == rest;
    } else {
      var a := done[..|done| - |INVOKE_CLOSE|];
      assert done == a + INVOKE_CLOSE;
      SuffixAfter(a, INVOKE_CLOSE, rest, v);
    }
  }

  lemma {:induction false} ConsumedSplit(m: string, counter: nat)
    ensures m == Consumed(m, counter) + Drain(m, counter).rest
  {
    hide Drain, InvokeEnd;
  }

  lemma {:induction false} CleanRest(m: string, counter: nat)
    requires Clean(m)
    ensures Clean(Drain(m, counter).rest)
  {
    DrainedIsPrefix(m, counter, "");
    ConsumedSplit(m, counter);
    var rest := Drain(m, counter).rest;
    assert m + "" == m && rest + "" == rest;
    assert Normalize(rest) == m[|Consumed(m, counter)|..];
  }

  lemma {:induction false} NothingDrained(m: string, counter: nat)
    requires InvokeEnd(m) == -1
    ensures Drain(m, counter) == Drained([], m, counter)
  {
  }

  /** An invoke that is incomplete in `m` is incomplete in every prefix. */
  lemma {:induction false} IncompletePrefix(m: string, cut: nat)
    requires InvokeEnd(m) == -1 && cut <= |m|
    ensures InvokeEnd(m[..cut]) == -1
  {
    assert m == m[..cut] + m[cut..];
    if InvokeEnd(m[..cut]) != -1 {
      InvokeEndStable(m[..cut], m[cut..]);
    }
  }

  lemma {:induction false} CloseIsNotInvokeClose(m: string, i: nat, j: nat)
    requires At(m, INVOKE_CLOSE, j) && j <= i < j + |INVOKE_CLOSE|
    ensures !At(m, CLOSE, i)
  {
    TagsAreSegments();
    AtChar(m, INVOKE_CLOSE, j, 8);
    AtChar(m, INVOKE_CLOSE, j, i - j);
    AtChar(m, CLOSE, i, 0);
    AtChar(m, CLOSE, i, 8);
    if i > j {
      SegmentChar(INVOKE_CLOSE, i - j);
    }
  }

  /** The meaning of an unclosed block, spelled out. */
  lemma {:induction false} MeaningOfOpenBlock(m: string, counter: nat)
    requires Find(m, CLOSE) == -1
    ensures BlockMeaning(m, counter) == CallEvents(Drain(m, counter).calls)
  {
    hide Find, Drain, CallEvents;
  }

  /** The meaning of a closed block, spelled out. */
  lemma {:induction false} MeaningOfClosedBlock(m: string, counter: nat, q: nat)
    requires q == Find(m, CLOSE)
    ensures q + |CLOSE| <= |m|
    ensures BlockMeaning(m, counter) == CallEvents(Drain(m[..q], counter).calls)
                                      + TextMeaning(m[q + |CLOSE|..], Drain(m[..q], counter).counter)
  {
    hide Find, Drain, CallEvents, TextMeaning;
  }

  lemma {:induction false} FirstStays(a: string, m: string, tail: string, tail': string)
    requires m != [] && Find(a + m + tail, m) == |a|
    ensures var x := a + m + tail';
            Find(x, m) == |a| && x[..|a|] == a && x[|a| + |m|..] == tail'
  {
    var s := a + m + tail;
    FindPrefix(s, m, |a + m|);
    assert s[..|a + m|] == a + m;
    FindStable(a + m, tail', m);
  }
}
