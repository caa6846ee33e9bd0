/** What stripping leaves of a text: everything outside its blocks. */
module DsmlStrip {
  import opened Options
  import opened Text
  import opened DsmlMarkers
  import opened Dsml
  import opened DsmlStreaming

  /** A text with blocks between its parts, and an unclosed block at its end, if any. */
  datatype Parts = Parts(first: string, blocks: seq<Closed>, open: Option<string>)

  /** A block from its opening tag to its first closing tag, and the text behind it. */
  datatype Closed = Closed(body: string, after: string)

  function Blocks(blocks: seq<Closed>): string {
    if blocks == [] then "" else OPEN + (blocks[0].body + (CLOSE + (blocks[0].after + Blocks(blocks[1..]))))
  }

  function Unclosed(open: Option<string>): string {
    match open
    case Some(tail) => OPEN + tail
    case None => ""
  }

  function Whole(p: Parts): string {
    p.first + (Blocks(p.blocks) + Unclosed(p.open))
  }

  function After(blocks: seq<Closed>): string {
    if blocks == [] then "" else blocks[0].after + After(blocks[1..])
  }

  /** The text outside the blocks. */
  function Outside(p: Parts): string {
    p.first + After(p.blocks)
  }

  /** Blocks end at their first closing tag, and what is unclosed has none. */
  ghost predicate WellCut(p: Parts) {
    && (forall b :: b in p.blocks ==> !Occurs(b.body, CLOSE))
    && (p.open.Some? ==> !Occurs(p.open.value, CLOSE))
  }

  // ---------- where the tags are found ----------

  lemma {:induction false} OpenFound(a: string, y: string)
    requires Find(a, OPEN) == -1
    ensures Find(a + (OPEN + y), OPEN) == |a|
    ensures (a + (OPEN + y))[..|a|] == a && (a + (OPEN + y))[|a|..] == OPEN + y
  {
    TagsAreSegments();
    var s := a + (OPEN + y);
    assert s[|a|..|a| + |OPEN|] == OPEN;
    forall j | 0 <= j < |a|
      ensures !At(s, OPEN, j)
    {
      if At(s, OPEN, j) {
        NoStraddle(a, OPEN + y, OPEN, j);
      }
    }
    FindIs(s, OPEN, |a|);
  }

  /** The closing tag of a block is the first one behind its opening tag. */
  lemma {:induction false} CloseFound(body: string, y: string)
    requires !Occurs(body, CLOSE)
    ensures Find(OPEN + (body + (CLOSE + y)), CLOSE) == |OPEN| + |body|
    ensures (OPEN + (body + (CLOSE + y)))[|OPEN| + |body| + |CLOSE|..] == y
  {
    var s := OPEN + (body + (CLOSE + y));
    assert s == (OPEN + body) + (CLOSE + y) && s == (OPEN + body + CLOSE) + y;
    NoneBefore(body, CLOSE + y);
    assert s[|OPEN| + |body|..|OPEN| + |body| + |CLOSE|] == CLOSE;
    FindIs(s, CLOSE, |OPEN| + |body|);
  }

  lemma {:induction false} NoneBefore(body: string, z: string)
    requires !Occurs(body, CLOSE) && AtTag(z)
    ensures forall j :: 0 <= j < |OPEN + body| ==> !At((OPEN + body) + z, CLOSE, j)
  {
    TagsAreSegments();
    var a := OPEN + body;
    forall j | 0 <= j < |a|
      ensures !At(a + z, CLOSE, j)
    {
      if At(a + z, CLOSE, j) {
        NoStraddle(a, z, CLOSE, j);
        CloseInBody(body, j);
      }
    }
  }

  lemma {:induction false} CloseInBody(body: string, j: nat)
    requires At(OPEN + body, CLOSE, j)
    ensures Occurs(body, CLOSE)
  {
    TagsAreSegments();
    var a := OPEN + body;
    AtChar(a, CLOSE, j, 0);
    AtChar(a, CLOSE, j, 1);
    assert forall k :: 0 <= k < |OPEN| ==> a[k] == OPEN[k];
    assert forall k :: 0 < k < |OPEN| ==> OPEN[k] == OPEN[1..][k - 1];
    assert j >= |OPEN|;
    AtRight(OPEN, body, CLOSE, j);
  }

  lemma {:induction false} NoneInUnclosed(tail: string)
    requires !Occurs(tail, CLOSE)
    ensures Find(OPEN + tail, CLOSE) == -1
  {
    var j := Find(OPEN + tail, CLOSE);
    if j != -1 {
      CloseInBody(tail, j);
    }
  }

  // ---------- one round of the loop ----------

  lemma {:induction false} StripOne(a: string, body: string, y: string)
    requires Find(a, OPEN) == -1 && !Occurs(body, CLOSE)
    ensures StripBlocks(a + (OPEN + (body + (CLOSE + y)))) == StripBlocks(a + y)
  {
    hide *;
    var x := OPEN + (body + (CLOSE + y));
    OpenFound(a, body + (CLOSE + y));
    CloseFound(body, y);
    TailBehind(a, x, |OPEN| + |body| + |CLOSE|);
    StripRound(a + x, |a|, |OPEN| + |body|);
  }

  lemma {:induction false} TailBehind(a: string, x: string, k: nat)
    requires k <= |x|
    ensures (a + x)[|a| + k..] == x[k..]
  {
  }

  lemma {:induction false} StripRound(s: string, start: nat, rel: nat)
    requires Find(s, OPEN) == start <= |s| && Find(s[start..], CLOSE) == rel
    ensures start + (rel + |CLOSE|) <= |s|
    ensures StripBlocks(s) == StripBlocks(s[..start] + s[start + (rel + |CLOSE|)..])
  {
    FindBounds(s[start..], CLOSE);
    hide *;
    assert start + rel + |CLOSE| == start + (rel + |CLOSE|);
    StripUnfolds(s, start, rel);
  }

  lemma {:induction false} StripUnfolds(s: string, start: nat, rel: nat)
    requires Find(s, OPEN) == start <= |s| && Find(s[start..], CLOSE) == rel && start + rel + |CLOSE| <= |s|
    ensures StripBlocks(s) == StripBlocks(s[..start] + s[start + rel + |CLOSE|..])
  {
    hide Find;
  }

  lemma {:induction false} StripUnclosed(a: string, tail: string)
    requires Find(a, OPEN) == -1 && !Occurs(tail, CLOSE)
    ensures StripBlocks(a + (OPEN + tail)) == a
  {
    OpenFound(a, tail);
    NoneInUnclosed(tail);
    hide Find, At;
  }

  lemma {:induction false} FrontHasNone(a: string, b: string)
    requires Find(a + b, OPEN) == -1
    ensures Find(a, OPEN) == -1
  {
    hide Find;
    PrefixHasNone(a + b, OPEN, |a|);
    assert (a + b)[..|a|] == a;
  }

  lemma {:induction false} StripParts(p: Parts)
    requires WellCut(p) && Find(Outside(p), OPEN) == -1
    ensures StripBlocks(Whole(p)) == Outside(p)
    decreases |p.blocks|
  {
    if p.blocks == [] {
      assert Outside(p) == p.first && Whole(p) == p.first + Unclosed(p.open);
      match p.open {
        case Some(tail) => StripUnclosed(p.first, tail);
        case None => assert p.first + "" == p.first;
      }
    } else {
      var b, rest := p.blocks[0], p.blocks[1..];
      var p' := Parts(p.first + b.after, rest, p.open);
      assert b in p.blocks && forall c :: c in rest ==> c in p.blocks;
      Assoc(p.first, b.after, After(rest));
      FrontHasNone(p.first, After(p.blocks));
      StripParts(p');
      var y := b.after + (Blocks(rest) + Unclosed(p.open));
      WholeRegroups(p);
      Assoc(p.first, b.after, Blocks(rest) + Unclosed(p.open));
      StripOne(p.first, b.body, y);
    }
  }

  lemma {:induction false} WholeRegroups(p: Parts)
    requires p.blocks != []
    ensures var b, rest := p.blocks[0], p.blocks[1..];
            Whole(p) == p.first + (OPEN + (b.body + (CLOSE + (b.after + (Blocks(rest) + Unclosed(p.open))))))
  {
    var b, rest, u := p.blocks[0], Blocks(p.blocks[1..]), Unclosed(p.open);
    assert Blocks(p.blocks) == OPEN + (b.body + (CLOSE + (b.after + rest)));
    hide *;
    Assoc(b.after, rest, u);
    Assoc(CLOSE, b.after + rest, u);
    Assoc(b.body, CLOSE + (b.after + rest), u);
    Assoc(OPEN, b.body + (CLOSE + (b.after + rest)), u);
  }

  // ---------- the result ----------

  /** Every text is cut into such parts. */
  lemma {:induction false} CutIntoParts(n: string) returns (p: Parts)
    ensures Whole(p) == n && WellCut(p)
    ensures Find(p.first, OPEN) == -1 && forall b :: b in p.blocks ==> Find(b.after, OPEN) == -1
    decreases |n|
  {
    var start := Find(n, OPEN);
    FindBounds(n, OPEN);
    if start == -1 {
      p := Parts(n, [], None);
      assert n + ("" + "") == n;
    } else {
      assert OPEN != [];
      var a, x := n[..start], n[start + |OPEN|..];
      hide *;
      PrefixHasNone(n, OPEN, start);
      AroundAt(n, OPEN, start);
      Assoc(a, OPEN, x);
      var q := Find(x, CLOSE);
      FindBounds(x, CLOSE);
      if q == -1 {
        NowhereFound(x);
        p := Parts(a, [], Some(x));
        OnlyUnclosed(a, x);
      } else {
        BodyEndsFirst(x, q);
        AroundAt(x, CLOSE, q);
        Assoc(x[..q], CLOSE, x[q + |CLOSE|..]);
        var p' := CutIntoParts(x[q + |CLOSE|..]);
        p := Parts(a, [Closed(x[..q], p'.first)] + p'.blocks, p'.open);
        OneMoreBlock(p, x[..q], p');
      }
    }
  }

  lemma {:induction false} OnlyUnclosed(a: string, x: string)
    requires !Occurs(x, CLOSE)
    ensures var p := Parts(a, [], Some(x)); Whole(p) == a + (OPEN + x) && WellCut(p)
  {
    hide Occurs;
    assert "" + (OPEN + x) == OPEN + x;
  }

  lemma {:induction false} OneMoreBlock(p: Parts, body: string, p': Parts)
    requires p.blocks == [Closed(body, p'.first)] + p'.blocks && p.open == p'.open
    requires WellCut(p') && !Occurs(body, CLOSE)
    ensures WellCut(p) && Whole(p) == p.first + (OPEN + (body + (CLOSE + Whole(p'))))
    ensures forall b :: b in p.blocks <==> b == Closed(body, p'.first) || b in p'.blocks
  {
    hide Occurs;
    assert p.blocks[1..] == p'.blocks && p.blocks[0] == Closed(body, p'.first);
    WholeRegroups(p);
  }

  lemma {:induction false} NowhereFound(x: string)
    requires Find(x, CLOSE) == -1
    ensures !Occurs(x, CLOSE)
  {
  }

  lemma {:induction false} BodyEndsFirst(x: string, q: nat)
    requires Find(x, CLOSE) == q && q <= |x|
    ensures !Occurs(x[..q], CLOSE)
  {
    assert CLOSE != [];
    if i :| At(x[..q], CLOSE, i) {
      assert x == x[..q] + x[q..];
      AtLeft(x[..q], x[q..], CLOSE, i);
    }
  }

  /** Stripping leaves the text outside the blocks, less an unfinished marker at its end, exactly
      when what the blocks parted does not join to a new opening tag. */
  lemma {:induction false} StripLeavesOutside(text: string, p: Parts)
    requires Normalize(text) == Whole(p) && WellCut(p)
    ensures var t := Outside(p);
            Strip(text) == t[..|t| - HoldOpen(t)] <==> Find(t, OPEN) == -1
  {
    hide Normalize, HoldOpen, Whole, Outside, WellCut, Find;
    var t := Outside(p);
    if Find(t, OPEN) == -1 {
      StripParts(p);
    }
    HeldHasNoOpen(t);
  }

  /** Leaving out an unfinished marker at the end takes no opening tag away. */
  lemma {:induction false} HeldHasNoOpen(t: string)
    ensures Find(t[..|t| - HoldOpen(t)], OPEN) == -1 ==> Find(t, OPEN) == -1
  {
    TagsAreSegments();
    var e, h := t[..|t| - HoldOpen(t)], t[|t| - HoldOpen(t)..];
    assert t == e + h;
    HoldOpenExact(t);
    assert |h| < |OPEN|;
    assert h != [] ==> h[0] == '<';
    var j := Find(t, OPEN);
    if Find(e, OPEN) == -1 && j != -1 && j < |e| {
      NoStraddle(e, h, OPEN, j);
    }
  }

  /** A block between two plain texts goes, and the texts stay. */
  lemma {:induction false} StripOneBlock(a: string, b: string, c: string)
    requires Plain(a) && Plain(c) && !Occurs(Normalize(b), CLOSE)
    ensures Strip(a + OPEN + b + CLOSE + c) == a + c
  {
    hide Normalize, HoldOpen;
    var p := Parts(a, [Closed(Normalize(b), c)], None);
    var block := p.blocks[0];
    assert p.blocks[1..] == [];
    assert After(p.blocks) == c + "" == c;
    WholeRegroups(p);
    assert c + ("" + "") == c;
    assert Whole(p) == a + (OPEN + (Normalize(b) + (CLOSE + c)));
    NormalizeAround(a, b, c);
    assert Plain(a + c);
    PlainShows(a + c);
    StripLeavesOutside(a + OPEN + b + CLOSE + c, p);
    assert (a + c)[..|a + c|] == a + c;
  }

  lemma {:induction false} NormalizeAround(a: string, b: string, c: string)
    requires Plain(a) && Plain(c)
    ensures Normalize(a + OPEN + b + CLOSE + c) == a + (OPEN + (Normalize(b) + (CLOSE + c)))
  {
    assert AtTag(CLOSE + c) by {
      assert CLOSE[0] == '<';
    }
    hide *;
    NormalizePlain(c);
    TagAround(CLOSE, c);
    NormalizeSplit(b, CLOSE + c);
    TagAround(OPEN, b + (CLOSE + c));
    CutPlain(a, OPEN + (b + (CLOSE + c)));
    Assoc(a + OPEN + b, CLOSE, c);
    Assoc(a + OPEN, b, CLOSE + c);
    Assoc(a, OPEN, b + (CLOSE + c));
  }

  lemma {:induction false} TagAround(m: string, t: string)
    requires m == OPEN || m == CLOSE
    ensures Normalize(m + t) == m + Normalize(t)
  {
    hide Normalize, Head;
    TagIsClean(m);
    assert "" + m == m;
    CutMarker("", m, t);
  }

  lemma {:induction false} TagIsClean(m: string)
    requires m == OPEN || m == CLOSE
    ensures Clean(m)
  {
    hide Normalize, Head;
    TagsAreSegments();
    NormalizeSegment(m);
    HeadMarker(m, "");
    assert m + "" == m;
  }
}
