/** What is shown and what is held back before any block opens. */
module DsmlBlocks {
  import opened Options
  import opened Text
  import opened DsmlMarkers
  import opened Dsml
  import opened DsmlStreaming
  import opened DsmlSafety

  /** The part of text that is shown, and the part that is held back. */
  function Shown(s: string): string {
    s[..|s| - HoldOpen(s)]
  }

  function Tail(s: string): string {
    s[|s| - HoldOpen(s)..]
  }

  /** Feeding chunks without finishing. */
  function Feed(st: State, chunks: seq<string>): (r: Pushed)
    requires WellFormed(st)
    ensures WellFormed(r.st)
    decreases |chunks|
  {
    if chunks == [] then Pushed(st, [])
    else
      var p := Push(st, chunks[0]);
      var r := Feed(p.st, chunks[1..]);
      Pushed(r.st, p.out + r.out)
  }

  /** While no opening tag and no closing alias has arrived, what is shown plus what is held is the whole
      normalised input, and the held part is the unfinished marker at its end. */
  lemma {:induction false} HoldBackExact(st: State, chunks: seq<string>)
    requires Quiescent(st) && st.capture.None?
    requires Find(Normalize(st.buf + Concat(chunks)), OPEN) == -1 && AliasFree(st.buf + Concat(chunks))
    ensures var n := Normalize(st.buf + Concat(chunks));
            var r := Feed(st, chunks);
            r.st == State(Tail(n), None, st.counter) && Events(r.out) == Chars(Shown(n))
    decreases |chunks|
  {
    if chunks == [] {
      HoldNothingNew(st);
    } else {
      hide *;
      var v := Concat(chunks[1..]);
      ConcatFirst(st.buf, chunks);
      var s := Normalize(st.buf + chunks[0]);
      TextPush(st, chunks[0], v);
      var p := Push(st, chunks[0]);
      HoldBackExact(p.st, chunks[1..]);
      FeedFirst(st, chunks);
      HoldGlue(Shown(s), Normalize(Tail(s) + v), Feed(p.st, chunks[1..]).out);
    }
  }

  lemma {:induction false} HoldNothingNew(st: State)
    requires Quiescent(st) && st.capture.None?
    ensures var n := Normalize(st.buf + Concat([]));
            && st == State(Tail(n), None, st.counter)
            && Events(Feed(st, []).out) == Chars(Shown(n))
            && Feed(st, []).st == st
  {
    hide Normalize, HoldOpen;
    assert st.buf + Concat([]) == st.buf;
  }

  lemma {:induction false} ConcatFirst(held: string, chunks: seq<string>)
    requires chunks != []
    ensures held + Concat(chunks) == held + chunks[0] + Concat(chunks[1..])
  {
    Assoc(held, chunks[0], Concat(chunks[1..]));
  }

  lemma {:induction false} FeedFirst(st: State, chunks: seq<string>)
    requires chunks != [] && WellFormed(st)
    ensures var p := Push(st, chunks[0]);
            Feed(st, chunks) == Pushed(Feed(p.st, chunks[1..]).st, p.out + Feed(p.st, chunks[1..]).out)
  {
    hide Push;
  }

  lemma {:induction false} HoldGlue(e: string, n: string, out: seq<Item>)
    requires HoldOpen(e + n) == HoldOpen(n)
    requires Events(out) == Chars(Shown(n))
    ensures Events(Texts(e) + out) == Chars(Shown(e + n)) && Tail(e + n) == Tail(n)
  {
    hide HoldOpen, Events, Texts, Chars;
    var shown := |n| - HoldOpen(n);
    EventsAppend(Texts(e), out);
    EventsTexts(e);
    SliceAcross(e, n, shown, shown);
    CharsAppend(e, n[..shown]);
  }

  lemma {:induction false} TextPush(st: State, b: string, v: string)
    requires Quiescent(st) && st.capture.None?
    requires Find(Normalize(st.buf + b + v), OPEN) == -1 && AliasFree(st.buf + b + v)
    ensures var s := Normalize(st.buf + b);
            var e, h := Shown(s), Tail(s);
            && Push(st, b) == Pushed(State(h, None, st.counter), Texts(e))
            && Quiescent(State(h, None, st.counter))
            && Normalize(st.buf + b + v) == e + Normalize(h + v)
            && HoldOpen(e + Normalize(h + v)) == HoldOpen(Normalize(h + v))
            && Find(Normalize(h + v), OPEN) == -1 && AliasFree(h + v)
  {
    hide *;
    var s := Normalize(st.buf + b);
    var e, h := Shown(s), Tail(s);
    TextPieces(st.buf + b, v);
    PushShows(st, b);
    NormalizeGrow(st.buf + b, v);
    ShownAndTail(s, v);
    HoldAcross(e, Normalize(h + v));
    NoneBehind(e, Normalize(h + v));
    AliasFreeBehind(e, h + v);
  }

  lemma {:induction false} ShownAndTail(s: string, v: string)
    ensures s == Shown(s) + Tail(s) && s + v == Shown(s) + (Tail(s) + v)
  {
    hide HoldOpen;
  }

  /** A push that brings no opening tag. */
  lemma {:induction false} PushShows(st: State, b: string)
    requires st.capture.None? && Find(Normalize(st.buf + b), OPEN) == -1
    ensures var s := Normalize(st.buf + b);
            Push(st, b) == Pushed(State(Tail(s), None, st.counter), Texts(Shown(s)))
            && Quiescent(State(Tail(s), None, st.counter))
  {
    hide Normalize, HoldOpen, Find, Texts;
    NormalizeClean(st.buf + b);
    HeldIsFinal(Normalize(st.buf + b));
  }

  lemma {:induction false} TextPieces(held: string, v: string)
    requires Find(Normalize(held + v), OPEN) == -1 && AliasFree(held + v)
    ensures var s := Normalize(held);
            var e, h := Shown(s), Tail(s);
            && Find(s, OPEN) == -1 && AliasFree(s + v)
            && Normalize(held + v) == e + Normalize(h + v)
            && Separated(e, Normalize(h + v)) && (Normalize(h + v) == [] ==> HoldOpen(e) == 0)
  {
    var s := Normalize(held);
    var e, h := Shown(s), Tail(s);
    assert s == e + h;
    hide Normalize, HoldOpen, Find, InBlock, ClosingAlias;
    NormalizeClean(held);
    NormalizeGrow(held, v);
    AliasFreeNormalized(held, v);
    NoOpenYet(s, v);
    ShownIsPrefix(e, h, v);
  }

  lemma {:induction false} NoOpenYet(s: string, v: string)
    requires Clean(s) && Find(Normalize(s + v), OPEN) == -1
    ensures Find(s, OPEN) == -1
  {
    var pos := Find(s, OPEN);
    assert OPEN != [] && (pos != -1 ==> At(s, OPEN, pos));
    if pos != -1 {
      hide Normalize, Find;
      var a, tail := s[..pos], s[pos + |OPEN|..];
      AroundAt(s, OPEN, pos);
      SuffixAfter(a, OPEN, tail, v);
      OccursHere(a, OPEN, Normalize(tail + v));
    }
  }

  lemma {:induction false} OccursHere(a: string, p: string, b: string)
    ensures Find(a + p + b, p) != -1
  {
    assert At(a + p + b, p, |a|);
  }

  lemma {:induction false} NoneBehind(e: string, t: string)
    requires Find(e + t, OPEN) == -1
    ensures Find(t, OPEN) == -1
  {
    if Find(t, OPEN) != -1 {
      AtRight(e, t, OPEN, |e| + Find(t, OPEN));
    }
  }

  lemma {:induction false} AliasFreeBehind(e: string, t: string)
    requires AliasFree(e + t)
    ensures AliasFree(t)
  {
    hide ClosingAlias;
    forall i
      ensures !ClosingAlias(t, i)
    {
      if ClosingAlias(t, i) {
        AliasTag(t, i);
        AliasRight(e, t, |e| + i);
      }
    }
  }
}
