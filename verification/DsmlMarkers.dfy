/** DSML markers and the alias normalisation of `harness-llm/src/dsml.rs`.

    Every marker and every alias has its only '<' at index 0. That single fact makes
    normalisation incremental, and it is what the chunk-invariance proof rests on. */
module DsmlMarkers {
  import opened Text

  const OPEN := "<｜DSML｜tool_calls>"
  const CLOSE := "</｜DSML｜tool_calls>"
  const INVOKE_OPEN := "<｜DSML｜invoke"
  const INVOKE_CLOSE := "</｜DSML｜invoke>"
  const PARAM_OPEN := "<｜DSML｜parameter"
  const PARAM_CLOSE := "</｜DSML｜parameter>"

  // The alias spellings that `normalize` rewrites, and the two canonical prefixes.
  const WIDE_CLOSER := "</｜｜DSML｜｜ "
  const WIDE_OPENER := "<｜｜DSML｜｜ "
  const ASCII_CLOSER := "</|DSML|"
  const ASCII_OPENER := "<|DSML|"
  const CLOSER := "</｜DSML｜"
  const OPENER := "<｜DSML｜"
  const SHORT_OPEN := "<｜DSML｜calls>"
  const SHORT_CLOSE := "</｜DSML｜calls>"

  // The three non-canonical openings that `hold_open_suffix` also waits for.
  const ASCII_OPEN := "<|DSML|tool_calls>"
  const WIDE_OPEN := "<｜｜DSML｜｜ calls>"

  predicate Plain(s: string) {
    '<' !in s
  }

  /** Nonempty, with its only '<' in front. */
  predicate Segment(s: string) {
    s != [] && s[0] == '<' && Plain(s[1..])
  }

  lemma {:induction false} SegmentChar(p: string, k: nat)
    requires Segment(p) && 0 < k < |p|
    ensures p[k] != '<'
  {
    assert p[k] == p[1..][k - 1];
  }

  predicate AtTag(s: string) {
    s == [] || s[0] == '<'
  }

  function Normalize(s: string): string {
    Replace(
      Replace(
        Replace(
          Replace(
            Replace(
              Replace(s, WIDE_CLOSER, CLOSER),
              WIDE_OPENER, OPENER),
            ASCII_CLOSER, CLOSER),
          ASCII_OPENER, OPENER),
        SHORT_OPEN, OPEN),
      SHORT_CLOSE, CLOSE)
  }

  // ---------- one replacement pass ----------

  lemma {:induction false} BlockTagsAreSegments()
    ensures Segment(OPEN) && Segment(CLOSE)
  {
  }

  lemma {:induction false} BlockAliasesAreSegments()
    ensures Segment(ASCII_OPEN) && Segment(WIDE_OPEN)
  {
  }

  lemma {:induction false} InvokeTagsAreSegments()
    ensures Segment(INVOKE_OPEN) && Segment(INVOKE_CLOSE) && Segment(PARAM_OPEN) && Segment(PARAM_CLOSE)
  {
  }

  lemma {:induction false} TagsAreSegments()
    ensures Segment(OPEN) && Segment(CLOSE) && Segment(ASCII_OPEN) && Segment(WIDE_OPEN)
    ensures Segment(INVOKE_OPEN) && Segment(INVOKE_CLOSE) && Segment(PARAM_OPEN) && Segment(PARAM_CLOSE)
  {
    hide *;
    BlockTagsAreSegments();
    BlockAliasesAreSegments();
    InvokeTagsAreSegments();
  }

  lemma {:induction false} AliasesAreSegments()
    ensures Segment(WIDE_CLOSER) && Segment(WIDE_OPENER) && Segment(ASCII_CLOSER) && Segment(ASCII_OPENER)
    ensures Segment(CLOSER) && Segment(OPENER) && Segment(SHORT_OPEN) && Segment(SHORT_CLOSE)
  {
  }

  /** A marker that starts inside `a` cannot reach past a following '<'. */
  lemma {:induction false} NoStraddle(a: string, b: string, p: string, i: int)
    requires Segment(p) && AtTag(b) && i < |a| && At(a + b, p, i)
    ensures i + |p| <= |a| && At(a, p, i)
  {
    forall k | i < k < i + |p|
      ensures (a + b)[k] != '<'
    {
      assert (a + b)[k] == (a + b)[i..i + |p|][k - i] == p[1..][k - i - 1];
    }
    assert b != [] ==> (a + b)[|a|] == b[0];
    AtLeft(a, b, p, i);
  }

  lemma {:induction false} ReplaceShort(s: string, p: string, r: string)
    requires |p| > 0
    ensures p <= s ==> Replace(s, p, r) == r + Replace(s[|p|..], p, r)
    ensures s != [] && !(p <= s) ==> Replace(s, p, r) == [s[0]] + Replace(s[1..], p, r)
  {
    if s != [] && |s| < |p| {
      assert s == [s[0]] + s[1..];
    }
  }

  /** One step of a pass does not look past a following tag. */
  lemma {:induction false} ReplaceStep(a: string, b: string, p: string, r: string)
    requires Segment(p) && AtTag(b) && a != []
    ensures p <= a + b <==> p <= a
    ensures p <= a ==> Replace(a + b, p, r) == r + Replace(a[|p|..] + b, p, r)
    ensures !(p <= a) ==> Replace(a + b, p, r) == [a[0]] + Replace(a[1..] + b, p, r)
  {
    if p <= a + b {
      NoStraddle(a, b, p, 0);
      assert (a + b)[|p|..] == a[|p|..] + b;
    } else {
      ReplaceShort(a + b, p, r);
      assert (a + b)[1..] == a[1..] + b;
    }
  }

  lemma {:induction false} ReplaceSplit(a: string, b: string, p: string, r: string)
    requires Segment(p) && AtTag(b)
    ensures Replace(a + b, p, r) == Replace(a, p, r) + Replace(b, p, r)
    decreases |a|
  {
    if a == [] {
      assert a + b == b;
    } else {
      ReplaceStep(a, b, p, r);
      ReplaceShort(a, p, r);
      hide *;
      if p <= a {
        ReplaceSplit(a[|p|..], b, p, r);
        Assoc(r, Replace(a[|p|..], p, r), Replace(b, p, r));
      } else {
        ReplaceSplit(a[1..], b, p, r);
        Assoc([a[0]], Replace(a[1..], p, r), Replace(b, p, r));
      }
    }
  }

  lemma {:induction false} ReplacePlain(s: string, p: string, r: string)
    requires Segment(p) && Plain(s)
    ensures Replace(s, p, r) == s
    decreases |s|
  {
    if s != [] {
      assert s[0] != '<';
      ReplaceShort(s, p, r);
      ReplacePlain(s[1..], p, r);
    }
  }

  /** What one pass does to a single segment. */
  function Rewrite(seg: string, p: string, r: string): string {
    if p <= seg then r + seg[|p|..] else seg
  }

  lemma {:induction false} ReplaceSegment(seg: string, p: string, r: string)
    requires Segment(seg) && Segment(p) && Segment(r)
    ensures Replace(seg, p, r) == Rewrite(seg, p, r)
    ensures Segment(Rewrite(seg, p, r))
  {
    if p <= seg {
      ReplacePlain(seg[|p|..], p, r);
      assert (r + seg[|p|..])[1..] == r[1..] + seg[|p|..];
    } else {
      ReplaceShort(seg, p, r);
      ReplacePlain(seg[1..], p, r);
      assert seg == [seg[0]] + seg[1..];
    }
  }

  lemma {:induction false} ReplaceAtTag(s: string, p: string, r: string)
    requires Segment(p) && Segment(r) && AtTag(s)
    ensures AtTag(Replace(s, p, r))
  {
  }

  // ---------- the six passes together ----------

  function Head(seg: string): string {
    Rewrite(
      Rewrite(
        Rewrite(
          Rewrite(
            Rewrite(
              Rewrite(seg, WIDE_CLOSER, CLOSER),
              WIDE_OPENER, OPENER),
            ASCII_CLOSER, CLOSER),
          ASCII_OPENER, OPENER),
        SHORT_OPEN, OPEN),
      SHORT_CLOSE, CLOSE)
  }

  lemma {:induction false} NormalizeSegment(seg: string)
    requires Segment(seg)
    ensures Normalize(seg) == Head(seg) && Segment(Head(seg))
  {
    TagsAreSegments();
    AliasesAreSegments();
    ReplaceSegment(seg, WIDE_CLOSER, CLOSER);
    var s1 := Rewrite(seg, WIDE_CLOSER, CLOSER);
    ReplaceSegment(s1, WIDE_OPENER, OPENER);
    var s2 := Rewrite(s1, WIDE_OPENER, OPENER);
    ReplaceSegment(s2, ASCII_CLOSER, CLOSER);
    var s3 := Rewrite(s2, ASCII_CLOSER, CLOSER);
    ReplaceSegment(s3, ASCII_OPENER, OPENER);
    var s4 := Rewrite(s3, ASCII_OPENER, OPENER);
    ReplaceSegment(s4, SHORT_OPEN, OPEN);
    var s5 := Rewrite(s4, SHORT_OPEN, OPEN);
    ReplaceSegment(s5, SHORT_CLOSE, CLOSE);
  }

  lemma {:induction false} NormalizePlain(s: string)
    requires Plain(s)
    ensures Normalize(s) == s
  {
    TagsAreSegments();
    AliasesAreSegments();
    ReplacePlain(s, WIDE_CLOSER, CLOSER);
    ReplacePlain(s, WIDE_OPENER, OPENER);
    ReplacePlain(s, ASCII_CLOSER, CLOSER);
    ReplacePlain(s, ASCII_OPENER, OPENER);
    ReplacePlain(s, SHORT_OPEN, OPEN);
    ReplacePlain(s, SHORT_CLOSE, CLOSE);
  }

  /** Normalisation works tag by tag. */
  lemma {:induction false} NormalizeSplit(a: string, b: string)
    requires AtTag(b)
    ensures Normalize(a + b) == Normalize(a) + Normalize(b)
    ensures AtTag(Normalize(b))
  {
    TagsAreSegments();
    AliasesAreSegments();
    ReplaceSplit(a, b, WIDE_CLOSER, CLOSER);
    ReplaceAtTag(b, WIDE_CLOSER, CLOSER);
    var a1, b1 := Replace(a, WIDE_CLOSER, CLOSER), Replace(b, WIDE_CLOSER, CLOSER);
    ReplaceSplit(a1, b1, WIDE_OPENER, OPENER);
    ReplaceAtTag(b1, WIDE_OPENER, OPENER);
    var a2, b2 := Replace(a1, WIDE_OPENER, OPENER), Replace(b1, WIDE_OPENER, OPENER);
    ReplaceSplit(a2, b2, ASCII_CLOSER, CLOSER);
    ReplaceAtTag(b2, ASCII_CLOSER, CLOSER);
    var a3, b3 := Replace(a2, ASCII_CLOSER, CLOSER), Replace(b2, ASCII_CLOSER, CLOSER);
    ReplaceSplit(a3, b3, ASCII_OPENER, OPENER);
    ReplaceAtTag(b3, ASCII_OPENER, OPENER);
    var a4, b4 := Replace(a3, ASCII_OPENER, OPENER), Replace(b3, ASCII_OPENER, OPENER);
    ReplaceSplit(a4, b4, SHORT_OPEN, OPEN);
    ReplaceAtTag(b4, SHORT_OPEN, OPEN);
    ReplaceSplit(Replace(a4, SHORT_OPEN, OPEN), Replace(b4, SHORT_OPEN, OPEN), SHORT_CLOSE, CLOSE);
    ReplaceAtTag(Replace(b4, SHORT_OPEN, OPEN), SHORT_CLOSE, CLOSE);
  }

  /** Position of the last '<' of a string that has one. */
  function LastTag(s: string): (i: nat)
    requires !Plain(s)
    ensures i < |s| && Segment(s[i..])
  {
    if s[|s| - 1] == '<' then |s| - 1
    else
      assert s == s[..|s| - 1] + [s[|s| - 1]];
      var i := LastTag(s[..|s| - 1]);
      assert s[i..][1..] == s[..|s| - 1][i..][1..] + [s[|s| - 1]];
      i
  }

  /** A string splits uniquely at its last '<'. */
  lemma {:induction false} LastTagUnique(a: string, seg: string, b: string, seg': string)
    requires Segment(seg) && Segment(seg') && a + seg == b + seg'
    ensures a == b && seg == seg'
  {
    LastTagIs(a, seg);
    LastTagIs(b, seg');
    assert |a| == |b|;
    assert a == (a + seg)[..|a|] == b;
    assert seg == (a + seg)[|a|..] == seg';
  }

  lemma {:induction false} LastTagIs(a: string, seg: string)
    requires Segment(seg)
    ensures !Plain(a + seg) && (a + seg)[|a|] == '<'
    ensures forall k :: |a| < k < |a + seg| ==> (a + seg)[k] != '<'
  {
    assert (a + seg)[|a|] == seg[0];
    forall k | |a| < k < |a + seg|
      ensures (a + seg)[k] != '<'
    {
      assert (a + seg)[k] == seg[1..][k - |a| - 1];
    }
  }

  /** The text before the first '<', and the rest. */
  function PlainPrefix(s: string): (i: nat)
    ensures i <= |s| && Plain(s[..i]) && AtTag(s[i..])
  {
    if s == [] || s[0] == '<' then 0
    else
      var i := 1 + PlainPrefix(s[1..]);
      assert s[..i] == [s[0]] + s[1..][..i - 1];
      i
  }

  lemma {:induction false} SegmentExtends(seg: string, b: string)
    requires Segment(seg) && Plain(b)
    ensures Segment(seg + b)
  {
    assert (seg + b)[1..] == seg[1..] + b;
  }

  // ---------- incremental normalisation ----------

  /** The letters after '<' tell the spellings apart. */
  lemma {:induction false} Spelling(s: string)
    ensures WIDE_CLOSER <= s ==> s[1] == '/' && s[2] == '｜' && s[3] == '｜'
    ensures WIDE_OPENER <= s ==> s[1] == '｜' && s[2] == '｜' && s[3] == 'D'
    ensures ASCII_CLOSER <= s ==> s[1] == '/' && s[2] == '|' && s[3] == 'D'
    ensures ASCII_OPENER <= s ==> s[1] == '|' && s[2] == 'D' && s[3] == 'S'
    ensures CLOSER <= s ==> s[1] == '/' && s[2] == '｜' && s[3] == 'D'
    ensures OPENER <= s ==> s[1] == '｜' && s[2] == 'D' && s[3] == 'S'
    ensures SHORT_OPEN <= s ==> s[1] == '｜' && s[2] == 'D' && s[3] == 'S'
    ensures SHORT_CLOSE <= s ==> s[1] == '/' && s[2] == '｜' && s[3] == 'D'
    ensures OPEN <= s ==> s[1] == '｜' && s[2] == 'D' && s[3] == 'S'
    ensures CLOSE <= s ==> s[1] == '/' && s[2] == '｜' && s[3] == 'D'
    ensures SHORT_OPEN <= s ==> s[7] == 'c'
    ensures SHORT_CLOSE <= s ==> s[8] == 'c'
    ensures OPEN <= s ==> s[7] == 't'
    ensures CLOSE <= s ==> s[8] == 't'
  {
    assert WIDE_CLOSER <= s ==> s[1] == WIDE_CLOSER[1] && s[2] == WIDE_CLOSER[2] && s[3] == WIDE_CLOSER[3];
    assert WIDE_OPENER <= s ==> s[1] == WIDE_OPENER[1] && s[2] == WIDE_OPENER[2] && s[3] == WIDE_OPENER[3];
    assert ASCII_CLOSER <= s ==> s[1] == ASCII_CLOSER[1] && s[2] == ASCII_CLOSER[2] && s[3] == ASCII_CLOSER[3];
    assert ASCII_OPENER <= s ==> s[1] == ASCII_OPENER[1] && s[2] == ASCII_OPENER[2] && s[3] == ASCII_OPENER[3];
    assert CLOSER <= s ==> s[1] == CLOSER[1] && s[2] == CLOSER[2] && s[3] == CLOSER[3];
    assert OPENER <= s ==> s[1] == OPENER[1] && s[2] == OPENER[2] && s[3] == OPENER[3];
    assert SHORT_OPEN <= s ==> s[1] == SHORT_OPEN[1] && s[2] == SHORT_OPEN[2] && s[3] == SHORT_OPEN[3];
    assert SHORT_CLOSE <= s ==> s[1] == SHORT_CLOSE[1] && s[2] == SHORT_CLOSE[2] && s[3] == SHORT_CLOSE[3];
    assert OPEN <= s ==> s[1] == OPEN[1] && s[2] == OPEN[2] && s[3] == OPEN[3];
    assert CLOSE <= s ==> s[1] == CLOSE[1] && s[2] == CLOSE[2] && s[3] == CLOSE[3];
    assert SHORT_OPEN <= s ==> s[7] == SHORT_OPEN[7];
    assert SHORT_CLOSE <= s ==> s[8] == SHORT_CLOSE[8];
    assert OPEN <= s ==> s[7] == OPEN[7];
    assert CLOSE <= s ==> s[8] == CLOSE[8];
  }

  predicate Canonical(seg: string) {
    OPENER <= seg || CLOSER <= seg
  }

  /** The last two passes, the only ones that touch a canonical tag. */
  function Expand(seg: string): string {
    Rewrite(Rewrite(seg, SHORT_OPEN, OPEN), SHORT_CLOSE, CLOSE)
  }

  lemma {:induction false} HeadCanonical(seg: string)
    requires Canonical(seg)
    ensures Head(seg) == Expand(seg) && Canonical(Expand(seg))
  {
    Spelling(seg);
    assert OPENER <= OPEN && CLOSER <= CLOSE;
    assert SHORT_OPEN <= seg ==> OPEN <= Rewrite(seg, SHORT_OPEN, OPEN);
    Spelling(Rewrite(seg, SHORT_OPEN, OPEN));
  }

  lemma {:induction false} ExpandShort(t: string)
    ensures Expand(SHORT_OPEN + t) == OPEN + t && Expand(OPEN + t) == OPEN + t
    ensures Expand(SHORT_CLOSE + t) == CLOSE + t && Expand(CLOSE + t) == CLOSE + t
  {
    Spelling(SHORT_OPEN + t);
    Spelling(SHORT_CLOSE + t);
    Spelling(OPEN + t);
    Spelling(CLOSE + t);
  }

  lemma {:induction false} ExpandGrow(seg: string, b: string)
    ensures Expand(Expand(seg) + b) == Expand(seg + b)
  {
    if SHORT_OPEN <= seg {
      var t := seg[|SHORT_OPEN|..];
      assert seg == SHORT_OPEN + t && seg + b == SHORT_OPEN + (t + b) && (OPEN + t) + b == OPEN + (t + b);
      ExpandShort(t);
      ExpandShort(t + b);
    } else if SHORT_CLOSE <= seg {
      var t := seg[|SHORT_CLOSE|..];
      assert seg == SHORT_CLOSE + t && seg + b == SHORT_CLOSE + (t + b) && (CLOSE + t) + b == CLOSE + (t + b);
      ExpandShort(t);
      ExpandShort(t + b);
    }
  }

  /** What the first four passes do: replace one leading alias, if there is one. */
  function Canonize(seg: string): string {
    if WIDE_CLOSER <= seg then CLOSER + seg[|WIDE_CLOSER|..]
    else if WIDE_OPENER <= seg then OPENER + seg[|WIDE_OPENER|..]
    else if ASCII_CLOSER <= seg then CLOSER + seg[|ASCII_CLOSER|..]
    else if ASCII_OPENER <= seg then OPENER + seg[|ASCII_OPENER|..]
    else seg
  }

  lemma {:induction false} HeadCanonize(seg: string)
    ensures Head(seg) == Expand(Canonize(seg))
  {
    Spelling(seg);
    Spelling(Canonize(seg));
  }

  lemma {:induction false} CanonizeAlias(t: string)
    ensures Canonize(WIDE_CLOSER + t) == CLOSER + t && Canonize(WIDE_OPENER + t) == OPENER + t
    ensures Canonize(ASCII_CLOSER + t) == CLOSER + t && Canonize(ASCII_OPENER + t) == OPENER + t
  {
    Spelling(WIDE_OPENER + t);
    Spelling(ASCII_CLOSER + t);
    Spelling(ASCII_OPENER + t);
  }

  lemma {:induction false} CanonizeRest(seg: string, b: string, p: string, r: string)
    requires (p, r) in {(WIDE_CLOSER, CLOSER), (WIDE_OPENER, OPENER), (ASCII_CLOSER, CLOSER), (ASCII_OPENER, OPENER)}
    requires p <= seg
    ensures Canonize(seg + b) == Canonize(seg) + b
  {
    var t := seg[|p|..];
    assert seg == p + t && seg + b == p + (t + b) && (r + t) + b == r + (t + b);
    CanonizeAlias(t);
    CanonizeAlias(t + b);
  }

  lemma {:induction false} CanonizeGrow(seg: string, b: string)
    requires Canonical(Canonize(seg))
    ensures Canonize(seg + b) == Canonize(seg) + b
  {
    if WIDE_CLOSER <= seg {
      CanonizeRest(seg, b, WIDE_CLOSER, CLOSER);
    } else if WIDE_OPENER <= seg {
      CanonizeRest(seg, b, WIDE_OPENER, OPENER);
    } else if ASCII_CLOSER <= seg {
      CanonizeRest(seg, b, ASCII_CLOSER, CLOSER);
    } else if ASCII_OPENER <= seg {
      CanonizeRest(seg, b, ASCII_OPENER, OPENER);
    } else {
      Spelling(seg + b);
    }
  }

  /** A segment's rewriting does not depend on when the segment's text arrives. */
  lemma {:induction false} HeadGrow(seg: string, b: string)
    ensures Head(Head(seg) + b) == Head(seg + b)
  {
    HeadCanonize(seg);
    var y := Canonize(seg);
    if Canonical(y) {
      HeadCanonize(seg + b);
      CanonizeGrow(seg, b);
      ExpandGrow(y, b);
      HeadCanonical(y);
      HeadCanonical(Expand(y) + b);
    } else {
      assert !(SHORT_OPEN <= y) && !(SHORT_CLOSE <= y) by {
        assert OPENER <= SHORT_OPEN && CLOSER <= SHORT_CLOSE;
      }
      assert Canonize(seg) == seg;
    }
  }

  /** Normalising what has arrived, then normalising again with more text appended,
      is normalising everything at once: the filter may normalise its held state. */
  lemma {:induction false} NormalizeGrow(a: string, b: string)
    ensures Normalize(Normalize(a) + b) == Normalize(a + b)
    decreases |a|
  {
    hide Normalize, Head;
    if Plain(a) {
      NormalizePlain(a);
    } else {
      var i, j := LastTag(a), PlainPrefix(b);
      var a0, seg, b0, b1 := a[..i], a[i..], b[..j], b[j..];
      assert a == a0 + seg && b == b0 + b1;
      NormalizeSplit(a0, seg);
      NormalizeSegment(seg);
      NormalizeTail(a0, seg, b0, b1);
      var a0' := Normalize(a0);
      NormalizeGrow(a0, []);
      assert a0 + [] == a0 && a0' + [] == a0';
      NormalizeTail(a0', Head(seg), b0, b1);
      HeadGrow(seg, b0);
    }
  }

  /** How a last segment followed by `b0 + b1` is normalised. */
  lemma {:induction false} NormalizeTail(a0: string, seg: string, b0: string, b1: string)
    requires Segment(seg) && Plain(b0) && AtTag(b1)
    ensures Normalize((a0 + seg) + (b0 + b1)) == Normalize(a0) + Head(seg + b0) + Normalize(b1)
  {
    hide Normalize, Head;
    SegmentExtends(seg, b0);
    NormalizeSegment(seg + b0);
    NormalizeSplit(a0, seg + b0);
    NormalizeSplit(a0 + (seg + b0), b1);
    assert (a0 + seg) + (b0 + b1) == (a0 + (seg + b0)) + b1;
  }

  predicate Clean(s: string) {
    Normalize(s) == s
  }

  lemma {:induction false} NormalizeClean(s: string)
    ensures Clean(Normalize(s))
  {
    hide Normalize;
    NormalizeGrow(s, []);
    assert s + [] == s && Normalize(s) + [] == Normalize(s);
  }

  /** Both halves of a clean string cut at a tag are clean. */
  lemma {:induction false} CleanHalves(a: string, seg: string)
    requires AtTag(seg) && Clean(a + seg)
    ensures Clean(a) && Clean(seg)
    decreases |seg|
  {
    hide Normalize, Head;
    if seg == [] {
      assert a + seg == a;
      NormalizePlain(seg);
    } else if Segment(seg) {
      NormalizeSplit(a, seg);
      NormalizeSegment(seg);
      LastTagUnique(Normalize(a), Head(seg), a, seg);
    } else {
      var i := LastTag(seg);
      assert seg == seg[..i] + seg[i..] && a + seg == (a + seg[..i]) + seg[i..];
      CleanHalves(a + seg[..i], seg[i..]);
      CleanHalves(a, seg[..i]);
      NormalizeSplit(seg[..i], seg[i..]);
    }
  }

  /** The last segment of `u` is not completed to an alias by `v`. */
  predicate Settled(u: string, v: string) {
    Plain(u) ||
    var x := u[LastTag(u)..] + v[..PlainPrefix(v)];
    Head(x) == x
  }

  lemma {:induction false} CutPlain(u: string, v: string)
    requires Plain(u)
    ensures Normalize(u + v) == u + Normalize(v)
  {
    hide Normalize;
    var j := PlainPrefix(v);
    var v0, v1 := v[..j], v[j..];
    assert v == v0 + v1 && u + v == (u + v0) + v1;
    NormalizeSplit(v0, v1);
    NormalizePlain(v0);
    NormalizeSplit(u + v0, v1);
    NormalizePlain(u + v0);
  }

  lemma {:induction false} CutSegment(u0: string, seg: string, v0: string, v1: string)
    requires Clean(u0) && Segment(seg) && Plain(v0) && AtTag(v1) && Head(seg + v0) == seg + v0
    ensures Normalize((u0 + seg) + (v0 + v1)) == (u0 + seg) + Normalize(v0 + v1)
  {
    assert Normalize(u0) == u0;
    hide *;
    NormalizeTail(u0, seg, v0, v1);
    CutPlain(v0, v1);
    Assoc(u0, seg, v0);
    Assoc(u0 + seg, v0, Normalize(v1));
  }

  /** A clean, settled prefix is not touched by what follows it. */
  lemma {:induction false} Cut(u: string, v: string)
    requires Clean(u) && Settled(u, v)
    ensures Normalize(u + v) == u + Normalize(v)
  {
    hide Normalize, Head;
    if Plain(u) {
      CutPlain(u, v);
    } else {
      var i, j := LastTag(u), PlainPrefix(v);
      assert u == u[..i] + u[i..] && v == v[..j] + v[j..];
      CleanHalves(u[..i], u[i..]);
      CutSegment(u[..i], u[i..], v[..j], v[j..]);
    }
  }

  lemma {:induction false} CutMarker(u: string, m: string, v: string)
    requires m in {OPEN, CLOSE, INVOKE_CLOSE}
    requires Clean(u + m)
    ensures Normalize(u + m + v) == u + m + Normalize(v)
  {
    hide Normalize, Head;
    TagsAreSegments();
    AliasesAreSegments();
    LastTagIs(u, m);
    LastTagUnique(u, m, (u + m)[..LastTag(u + m)], (u + m)[LastTag(u + m)..]);
    HeadMarker(m, v[..PlainPrefix(v)]);
    Cut(u + m, v);
  }

  lemma {:induction false} HeadMarker(m: string, t: string)
    requires m in {OPEN, CLOSE, INVOKE_CLOSE}
    ensures Head(m + t) == m + t
  {
    assert OPENER <= OPEN && CLOSER <= CLOSE && CLOSER <= INVOKE_CLOSE;
    HeadCanonical(m + t);
    if m == INVOKE_CLOSE {
      assert (m + t)[8] == INVOKE_CLOSE[8] == 'i';
      Spelling(m + t);
    } else {
      ExpandShort(t);
    }
  }

  // ---------- what an alias does to a tag ----------

  predicate OpenerAlias(p: string) {
    p == WIDE_OPENER || p == ASCII_OPENER || p == SHORT_OPEN
  }

  predicate CloserAlias(p: string) {
    p == WIDE_CLOSER || p == ASCII_CLOSER || p == SHORT_CLOSE
  }

  /** The alias that a segment starts with, if any. */
  function LeadingAlias(x: string): (p: string)
    ensures p != [] ==> p <= x && (OpenerAlias(p) || CloserAlias(p))
    ensures p == [] ==> Head(x) == x
  {
    HeadCanonize(x);
    if WIDE_CLOSER <= x then WIDE_CLOSER
    else if WIDE_OPENER <= x then WIDE_OPENER
    else if ASCII_CLOSER <= x then ASCII_CLOSER
    else if ASCII_OPENER <= x then ASCII_OPENER
    else if SHORT_OPEN <= x then SHORT_OPEN
    else if SHORT_CLOSE <= x then SHORT_CLOSE
    else []
  }

  lemma {:induction false} HeadOfCloser(x: string, p: string)
    requires CloserAlias(p) && p <= x
    ensures CLOSER <= Head(x)
  {
    HeadCanonize(x);
    Spelling(x);
    assert CLOSER <= SHORT_CLOSE && CLOSER <= CLOSE;
    Spelling(Canonize(x));
  }

  /** A segment that normalisation leaves alone starts with no alias. */
  lemma {:induction false} FixedHasNoAlias(seg: string, p: string)
    requires Head(seg) == seg && (OpenerAlias(p) || CloserAlias(p))
    ensures !(p <= seg)
  {
    if p <= seg {
      var t := seg[|p|..];
      assert seg == p + t;
      HeadCanonize(seg);
      Spelling(seg);
      if p == SHORT_OPEN || p == SHORT_CLOSE {
        ExpandShort(t);
        Spelling(OPEN + t);
        Spelling(CLOSE + t);
      } else {
        CanonizeAlias(t);
        HeadCanonical(Canonize(seg));
        Spelling(Head(seg));
      }
      assert false;
    }
  }

  // ---------- holding back a possible marker ----------

  /** `hold_suffix`: the scan keeps the last match, hence the shortest one. */
  function HoldSuffix(s: string, marker: string): (n: nat)
    ensures n <= |s|
  {
    if s == [] then 0
    else
      var n := HoldSuffix(s[1..], marker);
      if n > 0 then n else if |s| < |marker| && s <= marker then |s| else 0
  }

  method HoldSuffixScan(s: string, marker: string) returns (best: nat)
    ensures best == HoldSuffix(s, marker)
  {
    best := 0;
    var i := 0;
    while i < |s|
      invariant i <= |s|
      invariant HoldSuffix(s, marker) == if HoldSuffix(s[i..], marker) > 0 then HoldSuffix(s[i..], marker) else best
    {
      var suffix := s[i..];
      assert suffix[1..] == s[i + 1..];
      if |suffix| < |marker| && suffix <= marker {
        best := |suffix|;
      }
      i := i + 1;
    }
  }

  /** `s` ends with a nonempty proper prefix of `marker` of length `k`. */
  predicate EndsWithPrefix(s: string, marker: string, k: nat) {
    0 < k <= |s| && k < |marker| && s[|s| - k..] <= marker
  }

  /** Although the scan keeps the shortest match, for a marker whose only '<' is in
      front there is at most one match, so it is also the longest. */
  lemma {:induction false} HoldSuffixExact(s: string, marker: string)
    requires Segment(marker)
    ensures forall k :: EndsWithPrefix(s, marker, k) <==> 0 < k == HoldSuffix(s, marker)
    ensures HoldSuffix(s, marker) > 0 ==> Segment(s[|s| - HoldSuffix(s, marker)..])
  {
    if s != [] {
      HoldSuffixExact(s[1..], marker);
      forall k: nat | k < |s|
        ensures EndsWithPrefix(s, marker, k) <==> EndsWithPrefix(s[1..], marker, k)
      {
        assert s[|s| - k..] == s[1..][|s[1..]| - k..];
      }
      assert s[|s| - |s|..] == s;
      var n := HoldSuffix(s[1..], marker);
      if n > 0 {
        var t := s[|s| - n..];
        assert t == s[1..][|s[1..]| - n..];
        assert forall j :: 0 < j < |marker| ==> marker[j] == marker[1..][j - 1] != '<';
        assert s[|s| - n] == t[0] == '<';
      } else if |s| < |marker| && s <= marker {
        assert s[1..] <= marker[1..];
      }
    }
  }
}
