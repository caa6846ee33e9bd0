/** Streams written in canonical tags are their own normal form, so every stream of blocks with
    plain values and plain text has a spelling. */
module DsmlCanonical {
  import opened Text
  import opened DsmlMarkers
  import opened DsmlStreaming
  import opened DsmlInvokes
  import opened DsmlGaps
  import opened DsmlGapCuts
  import opened DsmlCuts

  predicate CanonicalTag(m: string) {
    m == OPEN || m == CLOSE || m == INVOKE_OPEN || m == INVOKE_CLOSE || m == PARAM_OPEN || m == PARAM_CLOSE
  }

  lemma {:induction false} HeadOfTag(m: string, t: string)
    requires CanonicalTag(m)
    ensures Head(m + t) == m + t
  {
    if m == OPEN || m == CLOSE || m == INVOKE_CLOSE {
      HeadMarker(m, t);
    } else {
      assert OPENER <= INVOKE_OPEN && OPENER <= PARAM_OPEN && CLOSER <= PARAM_CLOSE;
      assert (m + t)[7] == m[7] && (m + t)[8] == m[8];
      HeadCanonical(m + t);
      Spelling(m + t);
    }
  }

  lemma {:induction false} TagShape(m: string)
    requires CanonicalTag(m)
    ensures Segment(m)
  {
    TagsAreSegments();
  }

  /** A canonical tag in front of a clean text. */
  lemma {:induction false} CleanTag(m: string, s: string)
    requires CanonicalTag(m) && Clean(s)
    ensures Clean(m + s)
  {
    hide Normalize, Head, CanonicalTag;
    TagShape(m);
    var k := PlainPrefix(s);
    HeadOfTag(m, s[..k]);
    HeadOfTag(m, "");
    assert m + "" == m && s == s[..k] + s[k..] && "" + m == m;
    NormalizePlain("");
    CutSegment("", m, s[..k], s[k..]);
  }

  lemma {:induction false} CleanPlain(p: string, s: string)
    requires Plain(p) && Clean(s)
    ensures Clean(p + s)
  {
    hide Normalize;
    CutPlain(p, s);
  }

  // ---------- invokes with plain values ----------

  ghost predicate PlainParams(ps: seq<Param>) {
    forall p :: p in ps ==> Plain(p.value)
  }

  ghost predicate PlainInvokes(invokes: seq<Invoke>) {
    forall i :: i in invokes ==> PlainParams(i.params)
  }

  function Attributes(p: Param): string {
    NAME_IS + p.name + QUOTE + (STRING_IS + Kind(p) + QUOTE + ">")
  }

  lemma {:induction false} CleanParams(ps: seq<Param>, s: string)
    requires GoodParams(ps) && PlainParams(ps) && Clean(s)
    ensures Clean(RenderParams(ps) + s)
    decreases |ps|
  {
    if ps == [] {
      assert RenderParams(ps) + s == s;
    } else {
      var p, rest := ps[0], ps[1..];
      assert p in ps && forall q :: q in rest ==> q in ps;
      PlainAttributes(p);
      CleanParams(rest, s);
      ParamsRegroup(ps, s);
      hide *;
      CleanTag(PARAM_CLOSE, RenderParams(rest) + s);
      CleanPlain(p.value, PARAM_CLOSE + (RenderParams(rest) + s));
      CleanPlain(Attributes(p), p.value + (PARAM_CLOSE + (RenderParams(rest) + s)));
      CleanTag(PARAM_OPEN, Attributes(p) + (p.value + (PARAM_CLOSE + (RenderParams(rest) + s))));
      CleanPlain(p.gap, PARAM_OPEN + (Attributes(p) + (p.value + (PARAM_CLOSE + (RenderParams(rest) + s)))));
    }
  }

  lemma {:induction false} PlainAttributes(p: Param)
    requires GoodParam(p)
    ensures Plain(Attributes(p)) && Plain(p.gap)
    ensures CanonicalTag(PARAM_OPEN) && CanonicalTag(PARAM_CLOSE)
  {
    hide Occurs;
    assert Plain(NAME_IS) && Plain(QUOTE) && Plain(STRING_IS) && Plain(Kind(p)) && Plain(">");
  }

  lemma {:induction false} ParamsRegroup(ps: seq<Param>, s: string)
    requires ps != []
    ensures var p, rest := ps[0], ps[1..];
            RenderParams(ps) + s
            == p.gap + (PARAM_OPEN + (Attributes(p) + (p.value + (PARAM_CLOSE + (RenderParams(rest) + s)))))
  {
    ParamTagIs(ps[0]);
    RenderParamsIs(ps);
    hide *;
    ParamRegroups(ps[0].gap, Attributes(ps[0]), ps[0].value, RenderParams(ps[1..]), s);
  }

  lemma {:induction false} RenderParamsIs(ps: seq<Param>)
    requires ps != []
    ensures RenderParams(ps) == ps[0].gap + (ParamTag(ps[0]) + (ps[0].value + PARAM_CLOSE + RenderParams(ps[1..])))
  {
    hide ParamTag;
  }

  lemma {:induction false} ParamRegroups(gap: string, attributes: string, value: string, rest: string, s: string)
    ensures gap + (PARAM_OPEN + attributes + (value + PARAM_CLOSE + rest)) + s
         == gap + (PARAM_OPEN + (attributes + (value + (PARAM_CLOSE + (rest + s)))))
  {
    hide *;
    Assoc(PARAM_OPEN, attributes, value + PARAM_CLOSE + rest);
    assert value + PARAM_CLOSE + rest + s == value + (PARAM_CLOSE + (rest + s));
    Assoc(attributes, value + PARAM_CLOSE + rest, s);
    Assoc(PARAM_OPEN, attributes + (value + PARAM_CLOSE + rest), s);
    Assoc(gap, PARAM_OPEN + (attributes + (value + PARAM_CLOSE + rest)), s);
  }

  lemma {:induction false} ParamTagIs(p: Param)
    ensures ParamTag(p) == PARAM_OPEN + Attributes(p)
  {
    hide Kind;
    assert PARAM_OPEN + NAME_IS + p.name + QUOTE + (STRING_IS + Kind(p) + QUOTE + ">") == PARAM_OPEN + Attributes(p);
  }

  function Front(i: Invoke): string {
    NAME_IS + i.name + QUOTE + ">"
  }

  lemma {:induction false} CleanInvoke(i: Invoke, s: string)
    requires GoodInvoke(i) && PlainParams(i.params) && Clean(s)
    ensures Clean(i.gap + (RenderInvoke(i) + s))
  {
    assert Plain(NAME_IS) && Plain(QUOTE) && Plain(">") && Plain(Front(i)) && Plain(i.end) && Plain(i.gap) by {
      hide GoodParams;
    }
    assert CanonicalTag(INVOKE_OPEN) && CanonicalTag(INVOKE_CLOSE) && GoodParams(i.params);
    InvokeRegroups(i, s);
    hide *;
    var params := RenderParams(i.params);
    CleanTag(INVOKE_CLOSE, s);
    CleanPlain(i.end, INVOKE_CLOSE + s);
    CleanParams(i.params, i.end + (INVOKE_CLOSE + s));
    CleanPlain(Front(i), params + (i.end + (INVOKE_CLOSE + s)));
    CleanTag(INVOKE_OPEN, Front(i) + (params + (i.end + (INVOKE_CLOSE + s))));
    CleanPlain(i.gap, RenderInvoke(i) + s);
  }

  lemma {:induction false} InvokeRegroups(i: Invoke, s: string)
    ensures RenderInvoke(i) + s
         == INVOKE_OPEN + (Front(i) + (RenderParams(i.params) + (i.end + (INVOKE_CLOSE + s))))
  {
    var params, end, name := RenderParams(i.params), i.end, i.name;
    assert RenderInvoke(i) == INVOKE_OPEN + (NAME_IS + name + QUOTE + (">" + (params + end))) + INVOKE_CLOSE;
    hide *;
    assert INVOKE_OPEN + (NAME_IS + name + QUOTE + (">" + (params + end))) + INVOKE_CLOSE + s
        == INVOKE_OPEN + (NAME_IS + name + QUOTE + ">" + (params + (end + (INVOKE_CLOSE + s))));
    FrontIs(i);
  }

  lemma {:induction false} FrontIs(i: Invoke)
    ensures Front(i) == NAME_IS + i.name + QUOTE + ">"
  {
  }

  lemma {:induction false} CleanBlock(invokes: seq<Invoke>, end: string, s: string)
    requires GoodInvokes(invokes) && PlainInvokes(invokes) && Plain(end) && Clean(s)
    ensures Clean(RenderBlock(invokes, end) + s)
    decreases |invokes|
  {
    hide GoodInvoke, RenderInvoke, PlainParams, Normalize;
    if invokes == [] {
      CleanPlain(end, s);
    } else {
      var i, rest := invokes[0], invokes[1..];
      assert i in invokes && forall j :: j in rest ==> j in invokes;
      CleanBlock(rest, end, s);
      CleanInvoke(i, RenderBlock(rest, end) + s);
      BlockRegroups(i.gap, RenderInvoke(i), RenderBlock(rest, end), s);
    }
  }

  lemma {:induction false} BlockRegroups(gap: string, invoke: string, rest: string, s: string)
    ensures gap + (invoke + rest) + s == gap + (invoke + (rest + s))
  {
  }

  // ---------- streams ----------

  ghost predicate PlainBlocks(blocks: seq<Block>) {
    forall b :: b in blocks ==> PlainInvokes(b.invokes) && Plain(b.after)
  }

  lemma {:induction false} CleanBlocks(blocks: seq<Block>)
    requires GoodBlocks(blocks) && PlainBlocks(blocks)
    ensures Clean(Rendered(blocks))
    decreases |blocks|
  {
    hide GoodBlocks, Rendered, PlainInvokes;
    if blocks == [] {
      NormalizePlain("");
      BlockEventsIs(blocks, 0);
    } else {
      var b, rest := blocks[0], blocks[1..];
      assert b in blocks && forall c :: c in rest ==> c in blocks;
      assert CanonicalTag(OPEN) && CanonicalTag(CLOSE);
      GoodFirst(blocks);
      CleanBlocks(rest);
      OpenedIs(blocks);
      hide *;
      CleanPlain(b.after, Rendered(rest));
      CleanTag(CLOSE, Closed(blocks));
      CleanBlock(b.invokes, b.end, CLOSE + Closed(blocks));
      Assoc(RenderBlock(b.invokes, b.end), CLOSE, Closed(blocks));
      CleanTag(OPEN, Opened(blocks));
    }
  }

  lemma {:induction false} PlainIsProse(t: string)
    requires Plain(t)
    ensures Prose(t)
  {
    PlainShows(t);
    NoTagIn(t, OPENER);
    NoTagIn(t, CLOSER);
  }

  lemma {:induction false} NoTagIn(t: string, p: string)
    requires Plain(t) && p != [] && p[0] == '<'
    ensures !Occurs(t, p)
  {
    if i :| At(t, p, i) {
      AtChar(t, p, i, 0);
    }
  }

  /** Blocks and texts without a further '<' spell themselves: all chunkings of the text as it is
      written agree exactly when it is seamless. */
  lemma {:induction false} CanonicalCutIff(before: string, blocks: seq<Block>)
    requires Plain(before) && GoodBlocks(blocks) && PlainBlocks(blocks)
    ensures Spells(before + Rendered(blocks), before, blocks)
    ensures CutsAgree(before + Rendered(blocks)) <==> Seamless(blocks)
  {
    hide *;
    PlainIsProse(before);
    CleanBlocks(blocks);
    CleanPlain(before, Rendered(blocks));
    CleanSpells(before + Rendered(blocks), before, blocks);
    BlocksCutIff(before + Rendered(blocks), before, blocks);
  }
}
