/** The streams whose meaning no cutting changes, and that each step of the filter leaves such a
    stream behind. */
module DsmlSafety {
  import opened Text
  import opened DsmlMarkers
  import opened Dsml
  import opened DsmlStreaming

  // ---------- closing aliases in visible text ----------

  /** A closing tag in a spelling that normalisation rewrites starts at `i`. Outside a block the
      filter waits for opening tags only, so such a tag is rewritten if it arrives in one piece. */
  predicate ClosingAlias(w: string, i: int) {
    At(w, WIDE_CLOSER, i) || At(w, ASCII_CLOSER, i) || At(w, SHORT_CLOSE, i)
  }

  /** Whether a block is open behind a normalised text, given whether one was open before it. */
  function InBlock(open: bool, n: string): bool
    decreases |n|
  {
    if open then
      var q := Find(n, CLOSE);
      q == -1 || InBlock(false, n[q + |CLOSE|..])
    else
      var p := Find(n, OPEN);
      p != -1 && InBlock(true, n[p + |OPEN|..])
  }

  /** No closing alias starts in visible text. */
  ghost predicate Sheltered(open: bool, w: string) {
    forall i :: ClosingAlias(w, i) ==> InBlock(open, Normalize(w[..i]))
  }

  /** No closing tag is spelled as an alias at all. */
  ghost predicate AliasFree(w: string) {
    forall i :: !ClosingAlias(w, i)
  }

  // ---------- invokes behind a closing tag ----------

  /** What draining leaves of a block. */
  function Undrained(m: string): string {
    Drain(m, 0).rest
  }

  /** Every block of a normalised text is closed for good: behind its closing tag either no invoke
      is closed any more, or the next block opens at once and no invoke was left open. */
  ghost predicate SafeText(n: string)
    decreases |n|
  {
    var p := Find(n, OPEN);
    p == -1 || SafeRest(n[p + |OPEN|..])
  }

  /** The same for a text that starts inside a block. */
  ghost predicate SafeRest(m: string)
    decreases |m|
  {
    var q := Find(m, CLOSE);
    q == -1 ||
    var x := m[q + |CLOSE|..];
    && SafeText(x)
    && (!Occurs(x, INVOKE_CLOSE) || (OPEN <= x && Find(Undrained(m[..q]), INVOKE_OPEN) == -1))
  }

  /** What `st` has yet to see is safe. */
  ghost predicate Safe(st: State, input: string) {
    var n := Normalize(Held(st) + input);
    Sheltered(st.capture.Some?, Held(st) + input) && if st.capture.Some? then SafeRest(n) else SafeText(n)
  }

  // ---------- where an alias can start ----------

  lemma {:induction false} AliasTag(w: string, i: int)
    requires ClosingAlias(w, i)
    ensures 0 <= i < |w| && w[i] == '<'
  {
    AtChar(w, WIDE_CLOSER, i, 0);
    AtChar(w, ASCII_CLOSER, i, 0);
    AtChar(w, SHORT_CLOSE, i, 0);
  }

  lemma {:induction false} AliasRight(a: string, b: string, i: int)
    requires |a| <= i
    ensures ClosingAlias(a + b, i) <==> ClosingAlias(b, i - |a|)
  {
    AtRight(a, b, WIDE_CLOSER, i);
    AtRight(a, b, ASCII_CLOSER, i);
    AtRight(a, b, SHORT_CLOSE, i);
  }

  /** An alias that is complete in `a` is there in front of anything. */
  lemma {:induction false} AliasStays(a: string, b: string, i: int)
    requires ClosingAlias(a, i)
    ensures ClosingAlias(a + b, i)
  {
    if At(a, WIDE_CLOSER, i) {
      AtLeft(a, b, WIDE_CLOSER, i);
    } else if At(a, ASCII_CLOSER, i) {
      AtLeft(a, b, ASCII_CLOSER, i);
    } else {
      AtLeft(a, b, SHORT_CLOSE, i);
    }
  }

  /** An alias ends in front of the next tag. */
  lemma {:induction false} AliasInFront(a: string, b: string, i: int)
    requires AtTag(b) && i < |a| && ClosingAlias(a + b, i)
    ensures ClosingAlias(a, i)
  {
    AliasesAreSegments();
    hide Segment;
    if At(a + b, WIDE_CLOSER, i) {
      NoStraddle(a, b, WIDE_CLOSER, i);
    } else if At(a + b, ASCII_CLOSER, i) {
      NoStraddle(a, b, ASCII_CLOSER, i);
    } else {
      NoStraddle(a, b, SHORT_CLOSE, i);
    }
  }

  lemma {:induction false} AliasAtFront(x: string)
    ensures ClosingAlias(x, 0) <==> exists p :: CloserAlias(p) && p <= x
  {
    assert forall p :: p <= x <==> At(x, p, 0);
    if ClosingAlias(x, 0) {
      assert At(x, WIDE_CLOSER, 0) ==> CloserAlias(WIDE_CLOSER) && WIDE_CLOSER <= x;
      assert At(x, ASCII_CLOSER, 0) ==> CloserAlias(ASCII_CLOSER) && ASCII_CLOSER <= x;
      assert At(x, SHORT_CLOSE, 0) ==> CloserAlias(SHORT_CLOSE) && SHORT_CLOSE <= x;
    }
  }

  lemma {:induction false} CleanSegmentHasNoAlias(x: string)
    requires Segment(x) && Clean(x)
    ensures !ClosingAlias(x, 0)
  {
    hide Normalize, Head, ClosingAlias;
    NormalizeSegment(x);
    AliasAtFront(x);
    if p :| CloserAlias(p) && p <= x {
      FixedHasNoAlias(x, p);
    }
  }

  lemma {:induction false} CleanHasNoAlias(s: string, i: int)
    requires Clean(s)
    ensures !ClosingAlias(s, i)
  {
    hide Normalize, ClosingAlias;
    if ClosingAlias(s, i) {
      AliasTag(s, i);
      assert s == s[..i] + s[i..];
      CleanHalves(s[..i], s[i..]);
      AliasRight(s[..i], s[i..], i);
      var j := 1 + PlainPrefix(s[i..][1..]);
      var x, rest := s[i..][..j], s[i..][j..];
      assert s[i..] == x + rest && x[1..] == s[i..][1..][..j - 1];
      CleanHalves(x, rest);
      AliasInFront(x, rest, 0);
      CleanSegmentHasNoAlias(x);
    }
  }

  // ---------- normalising early hides no alias ----------

  /** If a rewritten segment grows into a closing alias, it was one before. */
  lemma {:induction false} AliasOfHead(seg: string, b: string)
    requires ClosingAlias(Head(seg) + b, 0)
    ensures ClosingAlias(seg + b, 0)
  {
    var p := LeadingAlias(seg);
    if p == [] {
    } else if CloserAlias(p) {
      hide Head, ClosingAlias;
      AliasAtFront(seg);
      AliasStays(seg, b, 0);
    } else {
      OpenerIsNoCloser(seg, p, b);
    }
  }

  lemma {:induction false} OpenerIsNoCloser(seg: string, p: string, b: string)
    requires OpenerAlias(p) && p <= seg
    ensures !ClosingAlias(Head(seg) + b, 0)
  {
    HeadCanonize(seg);
    Spelling(seg);
    Spelling(Canonize(seg));
    Spelling(Head(seg));
    Spelling(Head(seg) + b);
    assert OPENER <= SHORT_OPEN && OPENER <= OPEN;
    var s := Head(seg) + b;
    assert At(s, WIDE_CLOSER, 0) ==> WIDE_CLOSER <= s;
    assert At(s, ASCII_CLOSER, 0) ==> ASCII_CLOSER <= s;
    assert At(s, SHORT_CLOSE, 0) ==> SHORT_CLOSE <= s;
  }

  /** An alias that starts in normalised text started in the text itself, behind the same text. */
  lemma {:induction false} AliasFromRaw(a: string, v: string, i: nat) returns (j: nat)
    requires i < |Normalize(a)| && ClosingAlias(Normalize(a) + v, i)
    ensures j <= |a| && ClosingAlias(a + v, j) && Normalize(a[..j]) == Normalize((Normalize(a) + v)[..i])
  {
    hide Normalize, Head, ClosingAlias;
    var n := Normalize(a);
    AliasTag(n + v, i);
    assert n[i] == '<';
    if Plain(a) {
      NormalizePlain(a);
    }
    j := LastTag(a);
    var a0, seg := a[..j], a[j..];
    assert a == a0 + seg;
    NormalizeSplit(a0, seg);
    NormalizeSegment(seg);
    NormalizeClean(a0);
    var n0, h := Normalize(a0), Head(seg);
    assert n + v == n0 + (h + v);
    assert forall k :: 0 < k < |h| ==> h[k] == h[1..][k - 1] && n[|n0| + k] == h[k];
    if i < |n0| {
      AliasInFront(n0, h + v, i);
      CleanHasNoAlias(n0, i);
    }
    assert i == |n0|;
    AliasRight(n0, h + v, i);
    GrowAlias(seg, v);
    AliasRight(a0, seg + v, j);
    assert a0 + (seg + v) == a + v;
    assert (n + v)[..i] == n0;
  }

  lemma {:induction false} GrowAlias(seg: string, v: string)
    requires Segment(seg) && ClosingAlias(Head(seg) + v, 0)
    ensures ClosingAlias(seg + v, 0)
  {
    hide Normalize, Head, ClosingAlias;
    var k := PlainPrefix(v);
    var v0, v1 := v[..k], v[k..];
    NormalizeSegment(seg);
    assert Head(seg) + v == (Head(seg) + v0) + v1 && seg + v == (seg + v0) + v1;
    AliasInFront(Head(seg) + v0, v1, 0);
    AliasOfHead(seg, v0);
    AliasStays(seg + v0, v1, 0);
  }

  lemma {:induction false} ShelterAt(open: bool, w: string, i: nat)
    requires Sheltered(open, w) && ClosingAlias(w, i) && i <= |w|
    ensures InBlock(open, Normalize(w[..i]))
  {
    hide Normalize, InBlock, ClosingAlias;
  }

  lemma {:induction false} ShelterNormalizedAt(open: bool, a: string, v: string, i: nat)
    requires Sheltered(open, a + v) && ClosingAlias(Normalize(a) + v, i) && i <= |Normalize(a) + v|
    ensures InBlock(open, Normalize((Normalize(a) + v)[..i]))
  {
    hide *;
    var n := Normalize(a);
    if i < |n| {
      var j := AliasFromRaw(a, v, i);
      assert (a + v)[..j] == a[..j];
      ShelterAt(open, a + v, j);
    } else {
      AliasRight(n, v, i);
      var k := i - |n|;
      AliasRight(a, v, |a| + k);
      assert (a + v)[..|a| + k] == a + v[..k] && (n + v)[..i] == n + v[..k];
      NormalizeGrow(a, v[..k]);
      ShelterAt(open, a + v, |a| + k);
    }
  }

  lemma {:induction false} ShelterNormalized(open: bool, a: string, v: string)
    requires Sheltered(open, a + v)
    ensures Sheltered(open, Normalize(a) + v)
  {
    hide Normalize, InBlock;
    var n := Normalize(a);
    forall i | ClosingAlias(n + v, i)
      ensures InBlock(open, Normalize((n + v)[..i]))
    {
      ShelterNormalizedAt(open, a, v, i);
    }
  }

  lemma {:induction false} AliasFreeNormalized(a: string, v: string)
    requires AliasFree(a + v)
    ensures AliasFree(Normalize(a) + v)
  {
    hide Normalize, ClosingAlias;
    var n := Normalize(a);
    forall i
      ensures !ClosingAlias(n + v, i)
    {
      if ClosingAlias(n + v, i) {
        AliasTag(n + v, i);
        if i < |n| {
          var j := AliasFromRaw(a, v, i);
        } else {
          AliasRight(n, v, i);
          AliasRight(a, v, |a| + (i - |n|));
        }
      }
    }
  }

  // ---------- dropping what has been dealt with ----------

  /** If `rest` goes on with a tag at `i`, an open block there is an open block with `front` gone. */
  ghost predicate DropsAt(front: string, rest: string, i: nat, open: bool, open': bool)
    requires i <= |rest|
  {
    InBlock(open, Normalize(front + rest[..i])) ==> InBlock(open', Normalize(rest[..i]))
  }

  lemma {:induction false} ShelterDrop(front: string, rest: string, open: bool, open': bool)
    requires Sheltered(open, front + rest)
    requires forall i :: 0 <= i < |rest| && rest[i] == '<' ==> DropsAt(front, rest, i, open, open')
    ensures Sheltered(open', rest)
  {
    hide Normalize, InBlock;
    forall i | ClosingAlias(rest, i)
      ensures InBlock(open', Normalize(rest[..i]))
    {
      AliasTag(rest, i);
      assert DropsAt(front, rest, i, open, open');
      AliasRight(front, rest, |front| + i);
      assert (front + rest)[..|front| + i] == front + rest[..i];
    }
  }

  /** Behind the block's tag the other state begins. */
  lemma {:induction false} ShelterPast(a: string, tail: string, v: string, open: bool)
    requires var m := if open then CLOSE else OPEN;
             Clean(a + m + tail) && Find(a + m + tail, m) == |a| && Sheltered(open, a + m + tail + v)
    ensures Sheltered(!open, tail + v)
  {
    hide Normalize, Sheltered, InBlock;
    var m := if open then CLOSE else OPEN;
    CleanUpTo(a, m, tail);
    assert a + m + tail + v == (a + m) + (tail + v);
    forall i | 0 <= i < |tail + v| && (tail + v)[i] == '<'
      ensures DropsAt(a + m, tail + v, i, open, !open)
    {
      var x := (tail + v)[..i];
      CutMarker(a, m, x);
      InBlockPast(a, tail, Normalize(x), open);
    }
    ShelterDrop(a + m, tail + v, open, !open);
  }

  lemma {:induction false} InBlockPast(a: string, tail: string, y: string, open: bool)
    requires var m := if open then CLOSE else OPEN;
             Find(a + m + tail, m) == |a|
    ensures var m := if open then CLOSE else OPEN;
            InBlock(open, a + m + y) == InBlock(!open, y)
  {
    hide Find;
    FirstStays(a, if open then CLOSE else OPEN, tail, y);
  }

  // ---------- text outside a block ----------

  /** Text that holds nothing back is settled, unless its last tag becomes a closing alias. */
  lemma {:induction false} HoldSettles(u: string, v: string)
    requires Clean(u) && HoldOpen(u) == 0
    requires !Plain(u) ==> !ClosingAlias(u + v, LastTag(u))
    ensures DsmlMarkers.Settled(u, v)
  {
    hide Normalize, Head, ClosingAlias;
    if !Plain(u) {
      var i, j := LastTag(u), PlainPrefix(v);
      var u0, seg := u[..i], u[i..];
      assert u == u0 + seg;
      CleanHalves(u0, seg);
      assert u + v == u0 + (seg + v[..j] + v[j..]) && |u0| == i;
      SegmentSettles(u0, seg, v[..j], v[j..]);
    }
  }

  lemma {:induction false} SegmentSettles(u0: string, seg: string, v0: string, v1: string)
    requires Segment(seg) && Clean(seg) && HoldOpen(u0 + seg) == 0
    requires !ClosingAlias(u0 + (seg + v0 + v1), |u0|)
    ensures Head(seg + v0) == seg + v0
  {
    hide *;
    var x := seg + v0;
    var p := LeadingAlias(x);
    AliasRight(u0, x + v1, |u0|);
    AliasAtFront(x);
    NormalizeSegment(seg);
    CleanIs(seg);
    assert (u0 + seg)[|u0 + seg| - |seg|..] == seg;
    if p != [] {
      if CloserAlias(p) {
        AliasStays(x, v1, 0);
        assert false;
      } else {
        FixedHasNoAlias(seg, p);
        PrefixesNest(seg, v0, p);
        UnfinishedOpener(u0 + seg, seg, p);
        HoldOpenExact(u0 + seg);
        SegmentIsNotEmpty(seg);
        assert false;
      }
    }
  }

  lemma {:induction false} CleanIs(s: string)
    requires Clean(s)
    ensures Normalize(s) == s
  {
  }

  lemma {:induction false} SegmentIsNotEmpty(seg: string)
    requires Segment(seg)
    ensures |seg| > 0
  {
  }

  lemma {:induction false} PrefixesNest(a: string, b: string, p: string)
    requires p <= a + b && !(p <= a)
    ensures |a| < |p| && a <= p
  {
    assert a <= a + b;
  }

  /** An unfinished opening alias is an unfinished marker. */
  lemma {:induction false} UnfinishedOpener(u: string, seg: string, p: string)
    requires seg != [] && |seg| <= |u| && u[|u| - |seg|..] == seg
    requires OpenerAlias(p) && |seg| < |p| && seg <= p
    ensures exists m :: HoldMarker(m) && EndsWithPrefix(u, m, |seg|)
  {
    assert WIDE_OPENER <= WIDE_OPEN && ASCII_OPENER <= ASCII_OPEN;
    var m := if p == WIDE_OPENER then WIDE_OPEN else if p == ASCII_OPENER then ASCII_OPEN else SHORT_OPEN;
    assert p <= m;
    assert HoldMarker(m) && EndsWithPrefix(u, m, |seg|);
  }

  /** In text without an opening tag no alias is sheltered. */
  lemma {:induction false} TextSettles(e: string, v: string)
    requires Clean(e) && HoldOpen(e) == 0 && Find(e, OPEN) == -1
    requires Sheltered(false, e + v)
    ensures DsmlMarkers.Settled(e, v)
  {
    hide Normalize, Settled, ClosingAlias;
    if !Plain(e) {
      var i := LastTag(e);
      assert e == e[..i] + e[i..];
      CleanHalves(e[..i], e[i..]);
      PrefixHasNone(e, OPEN, i);
      assert (e + v)[..i] == e[..i];
      assert !InBlock(false, e[..i]);
    }
    HoldSettles(e, v);
  }

  /** What has been shown is a prefix of the normalised stream. */
  lemma {:induction false} ShownIsPrefix(e: string, h: string, v: string)
    requires Clean(e + h) && Find(e + h, OPEN) == -1 && HoldOpen(e + h) == |h|
    requires Sheltered(false, e + h + v)
    ensures Normalize(e + h + v) == e + Normalize(h + v)
    ensures Separated(e, Normalize(h + v)) && (Normalize(h + v) == [] ==> HoldOpen(e) == 0)
  {
    hide Normalize, Sheltered;
    HoldOpenExact(e + h);
    assert (e + h)[|e + h| - |h|..] == h;
    assert e + h + v == e + (h + v);
    if h != [] {
      assert AtTag(h + v);
      CleanHalves(e, h);
      CutAtTag(e, h + v);
    } else {
      assert e + h == e && h + v == v;
      TextSettles(e, v);
      Cut(e, v);
    }
  }

  /** A tag stays a tag. */
  lemma {:induction false} CutAtTag(e: string, t: string)
    requires Clean(e) && t != [] && t[0] == '<'
    ensures Normalize(e + t) == e + Normalize(t) && Normalize(t) != [] && Normalize(t)[0] == '<'
  {
    hide Normalize;
    NormalizeSplit(e, t);
    NormalizeTags(t);
    assert t[0] in multiset(t);
    assert Tags(t) > 0;
  }

  lemma {:induction false} PlainPrefixCut(v: string, i: nat)
    requires i < |v| && v[i] == '<'
    ensures PlainPrefix(v) <= i && PlainPrefix(v[..i]) == PlainPrefix(v)
  {
    if v[0] != '<' {
      assert v[1..][i - 1] == v[i] && v[1..][..i - 1] == v[..i][1..];
      PlainPrefixCut(v[1..], i - 1);
    }
  }

  lemma {:induction false} SettledUpTo(e: string, v: string, i: nat)
    requires DsmlMarkers.Settled(e, v) && i < |v| && v[i] == '<'
    ensures DsmlMarkers.Settled(e, v[..i])
  {
    hide Head;
    PlainPrefixCut(v, i);
    assert v[..i][..PlainPrefix(v)] == v[..PlainPrefix(v)];
  }

  /** Up to any tag behind it, text without an opening tag opens no block. */
  lemma {:induction false} TextOpensNothing(e: string, y: string)
    requires Find(e, OPEN) == -1 && Separated(e, y)
    ensures InBlock(false, e + y) == InBlock(false, y)
  {
    hide Find, HoldOpen;
    NoOpenAcross(e, y);
    FindSkip(e, y, OPEN);
    var p := Find(y, OPEN);
    assert p != -1 ==> (e + y)[|e| + p + |OPEN|..] == y[p + |OPEN|..];
  }

  lemma {:induction false} ShownDropsAt(e: string, h: string, v: string, i: nat)
    requires Clean(e) && Find(e, OPEN) == -1 && AtTag(h)
    requires h == [] ==> HoldOpen(e) == 0 && DsmlMarkers.Settled(e, v)
    requires i < |h + v| && (h + v)[i] == '<'
    ensures DropsAt(e, h + v, i, false, false)
  {
    hide Normalize, Settled, HoldOpen;
    var x := (h + v)[..i];
    if h == [] {
      assert h + v == v;
      SettledUpTo(e, v, i);
      Cut(e, x);
      TextOpensNothing(e, Normalize(x));
    } else if i == 0 {
      assert e + x == e;
    } else {
      CutAtTag(e, x);
      TextOpensNothing(e, Normalize(x));
    }
  }

  lemma {:induction false} ShelterShown(e: string, h: string, v: string)
    requires Clean(e + h) && Find(e + h, OPEN) == -1 && HoldOpen(e + h) == |h|
    requires Sheltered(false, e + h + v)
    ensures Sheltered(false, h + v)
  {
    hide Normalize, Sheltered, DropsAt, Settled;
    HoldOpenExact(e + h);
    assert (e + h)[|e + h| - |h|..] == h;
    CleanHalves(e, h);
    assert (e + h)[..|e|] == e;
    PrefixHasNone(e + h, OPEN, |e|);
    if h == [] {
      assert e + h == e;
      TextSettles(e, v);
    }
    forall i | 0 <= i < |h + v| && (h + v)[i] == '<'
      ensures DropsAt(e, h + v, i, false, false)
    {
      ShownDropsAt(e, h, v, i);
    }
    assert e + h + v == e + (h + v);
    ShelterDrop(e, h + v, false, false);
  }

  lemma {:induction false} SafeAcross(e: string, rest: string)
    requires Separated(e, rest) && Find(e, OPEN) == -1
    ensures SafeText(e + rest) <==> SafeText(rest)
  {
    hide SafeRest, Find, HoldOpen;
    NoOpenAcross(e, rest);
    FindSkip(e, rest, OPEN);
    var p := Find(rest, OPEN);
    assert p != -1 ==> (e + rest)[|e| + p + |OPEN|..] == rest[p + |OPEN|..];
  }
}
