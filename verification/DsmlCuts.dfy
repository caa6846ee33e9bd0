/** When cutting makes a difference: a stream whose blocks are closed for good reads the same in all
    chunkings exactly when no closing alias starts in visible text. */
module DsmlCuts {
  import opened Options
  import opened Text
  import opened DsmlMarkers
  import opened Dsml
  import opened DsmlStreaming
  import opened DsmlSafety
  import opened DsmlChains
  import opened DsmlInvariance

  /** What a consumer sees of a stream. */
  function Seen(st: State, chunks: seq<string>): seq<Event>
    requires WellFormed(st)
  {
    Events(Run(st, chunks))
  }

  /** All chunkings of `w` look like `w` in one chunk. */
  ghost predicate CutsAgree(w: string) {
    forall chunks :: Concat(chunks) == w ==> Seen(START, chunks) == Seen(START, [w])
  }

  // ---------- one direction ----------

  /** Outside a block, with nothing held back. */
  function Idle(counter: nat): State {
    State("", None, counter)
  }

  lemma {:induction false} IdleMeaning(w: string, counter: nat)
    ensures Meaning(Idle(counter), w) == TextMeaning(Normalize(w), counter)
    ensures Safe(Idle(counter), w) <==> Sheltered(false, w) && SafeText(Normalize(w))
    ensures Quiescent(Idle(counter))
  {
    NormalizePlain("");
    hide Normalize, TextMeaning, SafeText, Sheltered;
    assert "" + w == w;
  }

  lemma {:induction false} IdleSees(chunks: seq<string>, counter: nat)
    requires SafeText(Normalize(Concat(chunks))) && Sheltered(false, Concat(chunks))
    ensures Seen(Idle(counter), chunks) == TextMeaning(Normalize(Concat(chunks)), counter)
  {
    hide Safe, Meaning, Run, Events, Normalize, Sheltered, SafeText, Quiescent, TextMeaning;
    IdleMeaning(Concat(chunks), counter);
    ChunkInvariance(Idle(counter), chunks);
  }

  lemma {:induction false} ConcatOne(w: string)
    ensures Concat([w]) == w
  {
    assert [w][1..] == [];
  }

  lemma {:induction false} ShelteredCutsAgree(w: string)
    requires SafeText(Normalize(w)) && Sheltered(false, w)
    ensures CutsAgree(w)
    ensures Seen(START, [w]) == TextMeaning(Normalize(w), 0)
  {
    hide Seen, Normalize, Sheltered, SafeText, TextMeaning;
    forall chunks | Concat(chunks) == w
      ensures Seen(START, chunks) == TextMeaning(Normalize(w), 0)
    {
      IdleSees(chunks, 0);
    }
    ConcatOne(w);
  }

  // ---------- the state behind a push ----------

  lemma {:induction false} PrefixNone(x: string, y: string, p: string)
    ensures Occurs(x, p) ==> Occurs(x + y, p)
  {
    if i :| At(x, p, i) {
      AtLeft(x, y, p, i);
    }
  }

  /** Cut in front of a tag, a safe text stays safe. */
  lemma {:induction false} SafePrefix(x: string, y: string)
    requires SafeText(x + y) && AtTag(y)
    ensures SafeText(x)
    decreases |x|
  {
    var p := Find(x, OPEN);
    if p != -1 {
      assert OPEN != [];
      FindStable(x, y, OPEN);
      var m := x[p + |OPEN|..];
      assert (x + y)[p + |OPEN|..] == m + y;
      hide SafeText, Find;
      SafeBehindOpen(x + y, p);
      SafeRestPrefix(m, y);
      SafeIfRest(x, p);
    }
  }

  lemma {:induction false} SafeIfRest(x: string, p: int)
    requires p == Find(x, OPEN) != -1 && SafeRest(x[p + |OPEN|..])
    ensures SafeText(x)
  {
    hide SafeRest;
  }

  lemma {:induction false} SafeRestPrefix(m: string, y: string)
    requires SafeRest(m + y) && AtTag(y)
    ensures SafeRest(m)
    decreases |m|
  {
    assert CLOSE != [];
    hide *;
    var q := Find(m, CLOSE);
    FindBounds(m, CLOSE);
    if q == -1 {
      OpenIsSafe(m);
    } else {
      FindStable(m, y, CLOSE);
      var block, x := m[..q], m[q + |CLOSE|..];
      assert (m + y)[q + |CLOSE|..] == x + y && (m + y)[..q] == block;
      SafeRestIs(m, q, block, x);
      SafeRestIs(m + y, q, block, x + y);
      SafePrefix(x, y);
      PrefixNone(x, y, INVOKE_CLOSE);
      if OPEN <= x + y {
        OpensInFront(x, y);
      }
    }
  }

  lemma {:induction false} OpenIsSafe(m: string)
    requires Find(m, CLOSE) == -1
    ensures SafeRest(m)
  {
    hide Find;
  }

  /** Safety of a closed block, spelled out. */
  lemma {:induction false} SafeRestIs(m: string, q: nat, block: string, x: string)
    requires Find(m, CLOSE) == q && q + |CLOSE| <= |m| && block == m[..q] && x == m[q + |CLOSE|..]
    ensures SafeRest(m) <==>
              && SafeText(x)
              && (!Occurs(x, INVOKE_CLOSE) || (OPEN <= x && Find(Undrained(block), INVOKE_OPEN) == -1))
  {
    hide Find, SafeText, Occurs, Undrained;
  }

  lemma {:induction false} OpensInFront(x: string, y: string)
    requires OPEN <= x + y && AtTag(y)
    ensures OPEN <= x || !Occurs(x, INVOKE_CLOSE)
  {
    TagsAreSegments();
    if x == [] {
      assert !Occurs(x, INVOKE_CLOSE);
    } else {
      assert At(x + y, OPEN, 0);
      NoStraddle(x, y, OPEN, 0);
    }
  }

  /** The filter captures exactly while a block is open. */
  lemma {:induction false} PushMode(st: State, b: string)
    requires WellFormed(st) && Safe(st, b)
    ensures Push(st, b).st.capture.Some? == InBlock(st.capture.Some?, Normalize(Held(st) + b))
    decreases Tags(Held(st) + b)
  {
    hide Safe, BlockTurn, TextTurn, Tags, Quiescent, InBlock, Normalize, Held;
    assert b + "" == b;
    var t := OneTurn(st, b);
    if st.capture.Some? {
      BlockTurnKeeps(st, b, "");
      BlockTurnMode(st, b);
    } else {
      TextTurnKeeps(st, b, "");
      TextTurnMode(st, b);
    }
    if t.Again? {
      assert t.pending + "" == t.pending;
      TurnTags(st, b);
      PushMode(t.st, t.pending);
    }
  }

  lemma {:induction false} TextTurnMode(st: State, b: string)
    requires WellFormed(st) && st.capture.None?
    ensures var t := TextTurn(st, b);
            InBlock(false, Normalize(Held(st) + b))
            == if t.Again? then InBlock(t.st.capture.Some?, Normalize(Held(t.st) + t.pending)) else t.st.capture.Some?
  {
    hide Normalize, Find, HoldOpen;
    var s := Normalize(st.buf + b);
    NormalizeClean(st.buf + b);
    var t := TextTurn(st, b);
    if t.Again? {
      assert Held(t.st) + t.pending == t.pending;
      CleanBehind(s, OPEN, Find(s, OPEN));
    }
  }

  lemma {:induction false} BlockTurnMode(st: State, b: string)
    requires WellFormed(st) && st.capture.Some? && Safe(st, b)
    ensures var t := BlockTurn(st, b);
            InBlock(true, Normalize(Held(st) + b))
            == if t.Again? then InBlock(t.st.capture.Some?, Normalize(Held(t.st) + t.pending)) else t.st.capture.Some?
  {
    hide *;
    var held := st.capture.value + b;
    var d := Drain(Normalize(held), st.counter);
    StateMeaning(st, b);
    BlockModeDrained(held, st.counter);
    BlockMode(d.rest);
    BlockTurnIs(st, b);
    if Find(d.rest, CLOSE) != -1 {
      CleanBehind(d.rest, CLOSE, Find(d.rest, CLOSE));
      CleanIs(d.rest[Find(d.rest, CLOSE) + |CLOSE|..]);
    }
  }

  lemma {:induction false} BlockTurnIs(st: State, b: string)
    requires st.capture.Some? && WellFormed(st)
    ensures var t, rest := BlockTurn(st, b), Drain(Normalize(st.capture.value + b), st.counter).rest;
            var q := Find(rest, CLOSE);
            && Held(st) == st.capture.value
            && (q == -1 ==> t.Done? && t.st.capture.Some?)
            && (q != -1 ==> && t.Again? && t.st.capture.None? && q + |CLOSE| <= |rest|
                            && Held(t.st) + t.pending == rest[q + |CLOSE|..])
  {
    hide Normalize, Drain, Find;
    var rest := Drain(Normalize(st.capture.value + b), st.counter).rest;
    FindBounds(rest, CLOSE);
    var q := Find(rest, CLOSE);
    assert q != -1 ==> "" + rest[q + |CLOSE|..] == rest[q + |CLOSE|..];
  }

  lemma {:induction false} BlockModeDrained(held: string, counter: nat)
    requires SafeRest(Normalize(held))
    ensures var d := Drain(Normalize(held), counter);
            Clean(d.rest) && InBlock(true, Normalize(held)) == InBlock(true, d.rest)
  {
    hide *;
    var s := Normalize(held);
    NormalizeClean(held);
    var d, done := Drain(s, counter), Consumed(s, counter);
    ConsumedSplit(s, counter);
    ConsumedIsDrained(s, counter);
    SafeChained(done, d.rest);
    ChainedStaysOpen(done, d.rest);
    CleanRest(s, counter);
  }

  lemma {:induction false} BlockMode(m: string)
    ensures var q := Find(m, CLOSE);
            InBlock(true, m) == (q == -1 || InBlock(false, m[q + |CLOSE|..]))
  {
    hide Find;
  }

  lemma {:induction false} CleanBehind(s: string, m: string, pos: int)
    requires m == OPEN || m == CLOSE
    requires Clean(s) && pos == Find(s, m) != -1
    ensures pos + |m| <= |s| && Clean(s[pos + |m|..])
  {
    hide Normalize, Find;
    var a, tail := s[..pos], s[pos + |m|..];
    AroundAt(s, m, pos);
    SuffixAfter(a, m, tail, "");
    assert a + m + tail + "" == s && tail + "" == tail;
    assert (a + m + tail)[|a + m|..] == tail;
    assert (a + m + Normalize(tail))[|a + m|..] == Normalize(tail);
  }

  // ---------- what one chunk shows at least ----------

  /** Nothing in front of `k` opens a block or is held back. */
  ghost predicate ShowsUpTo(s: string, k: nat) {
    && k <= |s| - HoldOpen(s)
    && forall j :: At(s, OPEN, j) ==> k <= j
  }

  lemma {:induction false} RunShows(st: State, b: string, k: nat)
    requires WellFormed(st) && st.capture.None?
    requires ShowsUpTo(Normalize(st.buf + b), k)
    ensures var seen := Seen(st, [b]);
            |seen| >= k && forall j :: 0 <= j < k ==> seen[j] == Shown(Normalize(st.buf + b)[j])
  {
    hide Normalize, HoldOpen, Push, Events, Texts, Chars, Finish, Seen;
    var s := Normalize(st.buf + b);
    var cut := if Find(s, OPEN) == -1 then |s| - HoldOpen(s) else Find(s, OPEN);
    var rest := FirstPart(st, b);
    assert OneTurn(st, b).out == Texts(s[..cut]) && k <= cut;
    SeenOnce(st, b);
    EventsAppend(Texts(s[..cut]), rest);
    EventsTexts(s[..cut]);
    CharsAre(s[..cut]);
  }

  lemma {:induction false} SeenOnce(st: State, b: string)
    requires WellFormed(st)
    ensures Seen(st, [b]) == Events(Push(st, b).out) + Events(Finish(Push(st, b).st))
  {
    hide Push, Events, Finish;
    var r := Push(st, b);
    assert [b][1..] == [] && Run(r.st, []) == Finish(r.st);
    assert Run(st, [b]) == r.out + Run(r.st, [b][1..]);
    EventsAppend(r.out, Finish(r.st));
  }

  lemma {:induction false} CharsAre(s: string)
    ensures |Chars(s)| == |s| && forall j :: 0 <= j < |s| ==> Chars(s)[j] == Shown(s[j])
  {
  }

  function FirstPart(st: State, b: string): (rest: seq<Item>)
    requires WellFormed(st)
    ensures Push(st, b).out == OneTurn(st, b).out + rest
  {
    var t := OneTurn(st, b);
    if t.Done? then [] else
      TurnTags(st, b);
      Push(t.st, t.pending).out
  }

  // ---------- the other direction ----------

  /** A rewritten closing tag differs from its alias behind the first two letters. */
  lemma {:induction false} AliasDiffers(seg: string) returns (d: nat)
    requires Segment(seg) && ClosingAlias(seg, 0)
    ensures 2 <= d < |seg| && d < |Head(seg)| && Head(seg)[d] != seg[d]
    ensures seg[..2] == "</" && Segment(Head(seg)) && Head(seg)[1] == '/'
  {
    NormalizeSegment(seg);
    AliasAtFront(seg);
    var p :| CloserAlias(p) && p <= seg;
    HeadOfCloser(seg, p);
    Spelling(seg);
    Spelling(Head(seg));
    assert CLOSER <= SHORT_CLOSE && p[0] == '<' && p[1] == '/';
    if p == SHORT_CLOSE {
      ShortCloseGrows(seg);
      d := 8;
    } else {
      d := if p == WIDE_CLOSER then 3 else 2;
    }
  }

  lemma {:induction false} ShortCloseGrows(seg: string)
    requires SHORT_CLOSE <= seg
    ensures |Head(seg)| > 8 && Head(seg)[8] == 't' && seg[8] == 'c'
  {
    var t := seg[|SHORT_CLOSE|..];
    assert seg == SHORT_CLOSE + t;
    HeadCanonize(seg);
    Spelling(seg);
    ExpandShort(t);
    Spelling(CLOSE + t);
  }

  /** A closing tag at the end opens no block and is not held back. */
  lemma {:induction false} CloserShows(h: string, t: string)
    requires Segment(t) && |t| >= 2 && t[1] == '/' && Find(h, OPEN) == -1
    ensures Find(h + t, OPEN) == -1 && HoldOpen(h + t) == 0
  {
    var s, j := h + t, Find(h + t, OPEN);
    TagsAreSegments();
    AtChar(s, OPEN, j, 0);
    AtChar(s, OPEN, j, 1);
    LastTagIs(h, t);
    assert s[|h| + 1] == t[1];
    if j != -1 && j < |h| {
      NoStraddle(h, t, OPEN, j);
    }
    CloserIsNotHeld(h, t);
  }

  lemma {:induction false} CloserIsNotHeld(h: string, t: string)
    requires Segment(t) && |t| >= 2 && t[1] == '/'
    ensures HoldOpen(h + t) == 0
  {
    var s := h + t;
    var m := HeldMarker(s);
    assert m[1] == '｜' || m[1] == '|';
    assert s[|s| - |t|..] == t;
    hide HoldOpen, HeldMarker;
    HoldOpenExact(s);
    if HoldOpen(s) > 0 {
      SameTag(s, |t|, HoldOpen(s));
      assert false;
    }
  }

  lemma {:induction false} ShowsFront(x: string, z: string)
    requires Find(x, OPEN) == -1 && HoldOpen(x) == 0 && AtTag(z)
    ensures ShowsUpTo(x + z, |x|)
  {
    hide HoldOpen;
    NoOpenAcross(x, z);
    if z == [] {
      assert x + z == x;
    } else if HoldOpen(x + z) > 0 {
      HeldInside(x, z);
    }
  }

  /** Text with a held tail, waiting for more. */
  ghost predicate Waiting(st: State) {
    Quiescent(st) && st.capture.None?
  }

  /** In one chunk the alias is rewritten. */
  lemma {:induction false} AliasAtOnce(st: State, seg: string, rest: string, d: nat)
    requires Waiting(st) && Segment(seg) && AtTag(rest) && Segment(Head(seg))
    requires 2 <= d < |Head(seg)| && Head(seg)[1] == '/'
    ensures var seen := Seen(st, [seg + rest]);
            |seen| > |st.buf| + d && seen[|st.buf| + d] == Shown(Head(seg)[d])
  {
    var h, t, z := st.buf, Head(seg), Normalize(rest);
    hide Normalize, Head, HoldOpen, Seen, Find, ShowsUpTo;
    CutAtTag(h, seg + rest);
    NormalizeSegment(seg);
    NormalizeSplit(seg, rest);
    CloserShows(h, t);
    ShowsFront(h + t, z);
    Assoc(h, t, z);
    RunShows(st, seg + rest, |h + t|);
    assert (h + t + z)[|h| + d] == t[d];
  }

  /** Cut behind its second letter, the alias is shown as it is. */
  lemma {:induction false} AliasInTwo(st: State, seg: string, rest: string, d: nat)
    requires Waiting(st) && Segment(seg) && AtTag(rest) && |seg| >= 2 && seg[..2] == "</" && 2 <= d < |seg|
    ensures var seen := Seen(st, [seg[..2], seg[2..] + rest]);
            |seen| > |st.buf| + d && seen[|st.buf| + d] == Shown(seg[d])
  {
    hide *;
    var h, next := st.buf, State("", None, st.counter);
    PushCloser(st);
    WaitingIs(st);
    SeenTwice(st, seg[..2], seg[2..] + rest);
    EventsTexts(h + "</");
    CharsAre(h + "</");
    NextIsText(next);
    PlainAfter(seg, rest);
    RunShows(next, seg[2..] + rest, |seg[2..]|);
    assert (seg[2..] + Normalize(rest))[d - 2] == seg[d];
    assert |h + "</"| == |h| + 2;
  }

  lemma {:induction false} NextIsText(next: State)
    requires next.capture.None?
    ensures WellFormed(next)
  {
  }

  /** Behind its first two letters a tag is plain text. */
  lemma {:induction false} PlainAfter(seg: string, rest: string)
    requires Segment(seg) && AtTag(rest) && |seg| >= 2
    ensures Normalize("" + (seg[2..] + rest)) == seg[2..] + Normalize(rest)
    ensures ShowsUpTo(seg[2..] + Normalize(rest), |seg[2..]|)
  {
    hide Normalize, HoldOpen, Find, ShowsUpTo;
    assert seg[1..][1..] == seg[2..];
    assert "" + (seg[2..] + rest) == seg[2..] + rest;
    PlainShows(seg[2..]);
    NormalizePlain(seg[2..]);
    NormalizeSplit(seg[2..], rest);
    ShowsFront(seg[2..], Normalize(rest));
  }

  lemma {:induction false} SeenTwice(st: State, a: string, b: string)
    requires WellFormed(st)
    ensures Seen(st, [a, b]) == Events(Push(st, a).out) + Seen(Push(st, a).st, [b])
  {
    hide Push, Events, Seen;
    SeenOnwards(st, a, [b]);
    assert [a, b] == [a] + [b];
  }

  lemma {:induction false} SeenOnwards(st: State, a: string, chunks: seq<string>)
    requires WellFormed(st)
    ensures Seen(st, [a] + chunks) == Events(Push(st, a).out) + Seen(Push(st, a).st, chunks)
  {
    hide Push, Events;
    var r, all := Push(st, a), [a] + chunks;
    assert all[0] == a && all[1..] == chunks;
    assert Run(st, all) == r.out + Run(r.st, chunks);
    EventsAppend(r.out, Run(r.st, chunks));
  }

  lemma {:induction false} PushCloser(st: State)
    requires Waiting(st)
    ensures Push(st, "</") == Pushed(State("", None, st.counter), Texts(st.buf + "</"))
  {
    var h, s := st.buf, st.buf + "</";
    assert "</"[0] == '<' && Segment("</");
    HeadOfStart();
    hide *;
    WaitingIs(st);
    NormalizeSegment("</");
    CutAtTag(h, "</");
    CloserShows(h, "</");
    ShowingTurn(st, "</", s);
  }

  lemma {:induction false} ShowingTurn(st: State, b: string, s: string)
    requires WellFormed(st) && st.capture.None?
    requires s == Normalize(st.buf + b) && Find(s, OPEN) == -1 && HoldOpen(s) == 0
    ensures Push(st, b) == Pushed(State("", None, st.counter), Texts(s))
  {
    hide Normalize, Find, HoldOpen, Texts;
    assert s[..|s|] == s && s[|s|..] == "";
    assert TextTurn(st, b) == Done(State("", None, st.counter), Texts(s));
  }

  lemma {:induction false} HeadOfStart()
    ensures Head("</") == "</"
  {
  }

  /** A closing alias in visible text. */
  ghost predicate BareAlias(w: string, i: int) {
    0 <= i <= |w| && ClosingAlias(w, i) && !InBlock(false, Normalize(w[..i]))
  }

  lemma {:induction false} FirstBare(w: string, k: nat) returns (i: nat)
    requires BareAlias(w, k)
    ensures BareAlias(w, i) && forall j :: 0 <= j < i ==> !BareAlias(w, j)
    decreases k
  {
    hide BareAlias;
    i := k;
    if j :| 0 <= j < k && BareAlias(w, j) {
      i := FirstBare(w, j);
    }
  }

  lemma {:induction false} ShelteredUpToAt(w: string, i: nat, j: nat)
    requires i <= |w| && j <= i && !BareAlias(w, j) && ClosingAlias(w[..i], j)
    ensures InBlock(false, Normalize(w[..i][..j]))
  {
    hide Normalize, InBlock, ClosingAlias;
    AliasStays(w[..i], w[i..], j);
    assert w[..i] + w[i..] == w && w[..i][..j] == w[..j];
  }

  lemma {:induction false} ShelteredUpTo(w: string, i: nat)
    requires i <= |w| && forall j :: 0 <= j < i ==> !BareAlias(w, j)
    ensures Sheltered(false, w[..i])
  {
    hide Normalize, InBlock, BareAlias;
    forall j | ClosingAlias(w[..i], j)
      ensures InBlock(false, Normalize(w[..i][..j]))
    {
      AliasTag(w[..i], j);
      ShelteredUpToAt(w, i, j);
    }
  }

  /** The stream behind `a`, from its first bare alias on, in two cuttings. */
  lemma {:induction false} BareAliasCut(a: string, seg: string, rest: string)
    requires Safe(START, a) && !InBlock(false, Normalize(a))
    requires Segment(seg) && AtTag(rest) && ClosingAlias(seg, 0)
    ensures |seg| >= 2 && Seen(START, [a, seg + rest]) != Seen(START, [a, seg[..2], seg[2..] + rest])
  {
    hide *;
    var d := AliasDiffers(seg);
    StartIsState();
    PushWaits(a);
    var st := Push(START, a).st;
    AliasAtOnce(st, seg, rest, d);
    AliasInTwo(st, seg, rest, d);
    TwoCuts(a, seg[..2], seg[2..] + rest, seg + rest, |st.buf| + d);
  }

  /** What differs behind `a` differs with `a` in front. */
  lemma {:induction false} TwoCuts(a: string, x: string, y: string, z: string, k: nat)
    requires var one, two := Seen(Push(START, a).st, [z]), Seen(Push(START, a).st, [x, y]);
             k < |one| && k < |two| && one[k] != two[k]
    ensures Seen(START, [a, z]) != Seen(START, [a, x, y])
  {
    hide *;
    StartIsState();
    SeenTwice(START, a, z);
    SeenOnwards(START, a, [x, y]);
    InFront(a, x, y);
    SeenDiffer(Events(Push(START, a).out), Seen(Push(START, a).st, [z]), Seen(Push(START, a).st, [x, y]), k);
  }

  lemma {:induction false} InFront(a: string, b: string, c: string)
    ensures [a, b, c] == [a] + [b, c]
  {
  }

  /** Text that leaves no block open leaves the filter waiting for more text. */
  lemma {:induction false} PushWaits(a: string)
    requires Safe(START, a) && !InBlock(false, Normalize(a))
    ensures Waiting(Push(START, a).st) && WellFormed(Push(START, a).st)
  {
    hide *;
    StartIsState();
    assert a + "" == a && "" + a == a;
    PushMode(START, a);
    PushKeeps(START, a, "");
    WaitingIs(Push(START, a).st);
  }

  lemma {:induction false} SeenDiffer(front: seq<Event>, a: seq<Event>, b: seq<Event>, k: nat)
    requires k < |a| && k < |b| && a[k] != b[k]
    ensures front + a != front + b
  {
    assert (front + a)[|front| + k] == a[k] && (front + b)[|front| + k] == b[k];
  }

  lemma {:induction false} StartIsState()
    ensures WellFormed(START) && START.capture.None? && Held(START) == "" && START == Idle(0)
  {
  }

  lemma {:induction false} WaitingIs(st: State)
    ensures Quiescent(st) && st.capture.None? ==> Waiting(st)
    ensures Waiting(st) ==> WellFormed(st) && st.capture.None? && Clean(st.buf) && Find(st.buf, OPEN) == -1
  {
    hide Normalize, Find, HoldOpen;
  }

  lemma {:induction false} ConcatTwo(a: string, b: string)
    ensures Concat([a, b]) == a + b
  {
    assert [a, b][1..] == [b] && [b][1..] == [];
    assert Concat([b]) == b + "" == b;
  }

  lemma {:induction false} ConcatThree(a: string, b: string, c: string)
    ensures Concat([a, b, c]) == a + (b + c)
  {
    ConcatTwo(b, c);
    var all := [a, b, c];
    assert all[0] == a && all[1..] == [b, c];
    assert Concat(all) == a + Concat(all[1..]);
  }

  /** A bare closing alias, cut behind its second letter, is shown differently. */
  lemma {:induction false} BareAliasDepends(w: string) returns (one: seq<string>, two: seq<string>)
    requires SafeText(Normalize(w)) && !Sheltered(false, w)
    ensures Concat(one) == w == Concat(two) && Seen(START, one) != Seen(START, two)
  {
    hide *;
    var i := FirstUnsheltered(w);
    var a, seg, rest := AliasParts(w, i);
    SafeFront(a, seg + rest);
    BareAliasCut(a, seg, rest);
    one, two := [a, seg + rest], [a, seg[..2], seg[2..] + rest];
    ConcatTwo(a, seg + rest);
    ConcatThree(a, seg[..2], seg[2..] + rest);
    assert seg[..2] + (seg[2..] + rest) == seg + rest;
  }

  lemma {:induction false} AliasParts(w: string, i: nat) returns (a: string, seg: string, rest: string)
    requires i <= |w| && ClosingAlias(w, i)
    ensures w == a + (seg + rest) && a == w[..i] && Segment(seg) && AtTag(rest) && ClosingAlias(seg, 0)
    ensures AtTag(seg + rest)
  {
    hide ClosingAlias;
    AliasTag(w, i);
    a := w[..i];
    var b := w[i..];
    var k := 1 + PlainPrefix(b[1..]);
    seg, rest := b[..k], b[k..];
    assert w == a + b && b == seg + rest && seg[1..] == b[1..][..k - 1];
    AliasRight(a, b, i);
    AliasInFront(seg, rest, 0);
  }

  lemma {:induction false} SafeFront(a: string, b: string)
    requires SafeText(Normalize(a + b)) && AtTag(b) && Sheltered(false, a)
    ensures Safe(START, a)
  {
    hide *;
    NormalizeSplit(a, b);
    SafePrefix(Normalize(a), Normalize(b));
    StartIsState();
    IdleMeaning(a, 0);
  }

  lemma {:induction false} TwoDiffer(w: string, one: seq<string>, two: seq<string>)
    requires Concat(one) == w == Concat(two) && Seen(START, one) != Seen(START, two)
    ensures !CutsAgree(w)
  {
    hide Seen;
  }

  lemma {:induction false} FirstUnsheltered(w: string) returns (i: nat)
    requires !Sheltered(false, w)
    ensures i <= |w| && ClosingAlias(w, i) && !InBlock(false, Normalize(w[..i])) && Sheltered(false, w[..i])
  {
    hide Normalize, InBlock;
    var k :| ClosingAlias(w, k) && !InBlock(false, Normalize(w[..k]));
    assert BareAlias(w, k);
    i := FirstBare(w, k);
    ShelteredUpTo(w, i);
  }

  /** If every block is closed for good, all chunkings agree exactly when no closing alias starts in
      visible text; they then agree on the meaning of the stream. */
  lemma {:induction false} CutsAgreeIffSheltered(w: string)
    requires SafeText(Normalize(w))
    ensures CutsAgree(w) <==> Sheltered(false, w)
    ensures CutsAgree(w) ==> Seen(START, [w]) == TextMeaning(Normalize(w), 0)
  {
    hide Sheltered, SafeText, Normalize, Seen, TextMeaning;
    if Sheltered(false, w) {
      ShelteredCutsAgree(w);
    } else {
      var one, two := BareAliasDepends(w);
      TwoDiffer(w, one, two);
    }
  }

  // ---------- streams without a block ----------

  lemma {:induction false} NothingOpens(w: string, i: nat)
    requires Find(Normalize(w), OPEN) == -1 && i < |w| && w[i] == '<'
    ensures !InBlock(false, Normalize(w[..i]))
  {
    hide Normalize;
    assert w == w[..i] + w[i..];
    NormalizeSplit(w[..i], w[i..]);
    var n, z := Normalize(w[..i]), Normalize(w[i..]);
    PrefixHasNone(n + z, OPEN, |n|);
    assert (n + z)[..|n|] == n;
  }

  /** All chunkings of a stream that opens no block agree exactly when no closing tag in it is
      spelled as an alias. */
  lemma {:induction false} BlockFreeIff(w: string)
    requires Find(Normalize(w), OPEN) == -1
    ensures CutsAgree(w) <==> AliasFree(w)
    ensures CutsAgree(w) ==> var n := Normalize(w); Seen(START, [w]) == Chars(n[..|n| - HoldOpen(n)])
  {
    hide Normalize, CutsAgree, Seen, InBlock, HoldOpen;
    var n := Normalize(w);
    assert SafeText(n) && TextMeaning(n, 0) == Chars(n[..|n| - HoldOpen(n)]);
    CutsAgreeIffSheltered(w);
    forall i | ClosingAlias(w, i)
      ensures 0 <= i <= |w| && !InBlock(false, Normalize(w[..i]))
    {
      AliasTag(w, i);
      NothingOpens(w, i);
    }
  }
}
