/** Ways in which providers put calls into frames, and that each of them transmits the calls. */
module ToolWires {
  import opened Options
  import opened Text
  import opened ToolFragments
  import opened ToolCalls

  // ---------- pieces by index ----------

  lemma {:induction false} OnlyAppend(a: seq<Piece>, b: seq<Piece>, i: nat)
    ensures Only(a + b, i) == Only(a, i) + Only(b, i)
  {
    if a == [] {
      assert a + b == b;
    } else {
      assert (a + b)[1..] == a[1..] + b && (a + b)[0] == a[0];
      OnlyAppend(a[1..], b, i);
      if a[0].index == i {
        Assoc([a[0]], Only(a[1..], i), Only(b, i));
      }
    }
  }

  lemma {:induction false} OnlySame(ps: seq<Piece>, i: nat)
    ensures (forall p :: p in ps ==> p.index == i) ==> Only(ps, i) == ps
    ensures (forall p :: p in ps ==> p.index != i) ==> Only(ps, i) == []
  {
    if ps != [] {
      OnlySame(ps[1..], i);
      assert ps[0] in ps && forall p :: p in ps[1..] ==> p in ps;
    }
  }

  lemma {:induction false} FramesAppend(a: seq<Frame>, b: seq<Frame>)
    ensures FromFrames(a + b) == FromFrames(a) + FromFrames(b)
  {
    if a == [] {
      assert a + b == b;
    } else {
      hide FromFrame;
      assert (a + b)[1..] == a[1..] + b;
      FramesAppend(a[1..], b);
      Assoc(FromFrame(a[0]), FromFrames(a[1..]), FromFrames(b));
    }
  }

  // ---------- one part a frame, one call after the other ----------

  function PartOf(s: Sent, j: nat): RawCall
    requires j < |s.parts| == |s.withId|
  {
    RawCall(Some(s.index), if s.withId[j] then Some(s.id) else None, if j == 0 then s.name else "", s.parts[j])
  }

  /** The frames of the parts from `j` on. */
  function PartFrames(s: Sent, j: nat): seq<Frame>
    requires GoodId(s) && j <= |s.parts|
    decreases |s.parts| - j
  {
    if j == |s.parts| then [] else [Frame(ToolCalls([PartOf(s, j)]), NoCalls)] + PartFrames(s, j + 1)
  }

  /** The closing frame repeats the whole call as a message. */
  function ClosingFrame(s: Sent): Frame {
    Frame(NoCalls, ToolCalls([RawCall(Some(s.index), Some(s.id), s.name, Arguments(s))]))
  }

  function CallFrames(s: Sent): seq<Frame>
    requires GoodId(s)
  {
    PartFrames(s, 0) + [ClosingFrame(s)]
  }

  lemma {:induction false} PartPieces(s: Sent, j: nat)
    requires GoodId(s) && j <= |s.parts|
    ensures var ps := FromFrames(PartFrames(s, j));
            |ps| == |s.parts| - j && forall i :: 0 <= i < |ps| ==> Carries(ps[i], s, j + i)
    decreases |s.parts| - j
  {
    if j < |s.parts| {
      PartPieces(s, j + 1);
      var frames := PartFrames(s, j);
      assert frames[1..] == PartFrames(s, j + 1);
      var first, rest := FromFrame(frames[0]), FromFrames(frames[1..]);
      assert first == [Piece(s.index, PartOf(s, j), false)];
      forall i | 0 <= i < 1 + |rest|
        ensures Carries((first + rest)[i], s, j + i)
      {
        if i > 0 {
          assert Carries(rest[i - 1], s, j + 1 + (i - 1));
        }
      }
    }
  }

  lemma {:induction false} ClosingPiece(s: Sent)
    ensures FromFrames([ClosingFrame(s)]) == [Piece(s.index, RawCall(Some(s.index), Some(s.id), s.name, Arguments(s)), true)]
  {
    hide Arguments;
    assert [ClosingFrame(s)][1..] == [];
    assert FromFrame(ClosingFrame(s)) == [Piece(s.index, RawCall(Some(s.index), Some(s.id), s.name, Arguments(s)), true)];
  }

  lemma {:induction false} CallPieces(s: Sent)
    requires GoodId(s)
    ensures var ps := FromFrames(CallFrames(s)); PiecesOf(ps, s) && forall p :: p in ps ==> p.index == s.index
  {
    FramesAppend(PartFrames(s, 0), [ClosingFrame(s)]);
    PartPieces(s, 0);
    ClosingPiece(s);
    hide FromFrames, PartFrames, ClosingFrame, Arguments;
    var a := FromFrames(PartFrames(s, 0));
    forall i | 0 <= i < |a|
      ensures Carries(a[i], s, i)
    {
      assert Carries(a[i], s, 0 + i);
    }
  }

  function OneByOne(sent: seq<Sent>): seq<Frame>
    requires forall s :: s in sent ==> GoodId(s)
  {
    if sent == [] then []
    else
      assert sent[0] in sent && forall s :: s in sent[1..] ==> s in sent;
      CallFrames(sent[0]) + OneByOne(sent[1..])
  }

  ghost predicate Distinct(sent: seq<Sent>) {
    forall k, l :: 0 <= k < l < |sent| ==> sent[k].index != sent[l].index
  }

  lemma {:induction false} OneByOneOnly(sent: seq<Sent>, i: nat)
    requires (forall s :: s in sent ==> GoodId(s)) && Distinct(sent)
    ensures forall k :: 0 <= k < |sent| && sent[k].index == i ==> PiecesOf(Only(FromFrames(OneByOne(sent)), i), sent[k])
    ensures Only(FromFrames(OneByOne(sent)), i) != [] ==> exists k :: 0 <= k < |sent| && sent[k].index == i
    decreases |sent|
  {
    hide GoodId, PiecesOf, CallFrames, FromFrames;
    if sent == [] {
      NoFrames();
    } else {
      assert sent[0] in sent && forall s :: s in sent[1..] ==> s in sent;
      var rest := sent[1..];
      forall k, l | 0 <= k < l < |rest|
        ensures rest[k].index != rest[l].index
      {
        assert sent[k + 1].index != sent[l + 1].index;
      }
      OneByOneOnly(rest, i);
      FramesAppend(CallFrames(sent[0]), OneByOne(rest));
      OnlyAppend(FromFrames(CallFrames(sent[0])), FromFrames(OneByOne(rest)), i);
      CallPieces(sent[0]);
      OnlySame(FromFrames(CallFrames(sent[0])), i);
      OneMore(sent, i);
    }
  }

  lemma {:induction false} NoFrames()
    ensures FromFrames([]) == [] && Only([], 0) == []
  {
  }

  lemma {:induction false} OneMore(sent: seq<Sent>, i: nat)
    requires sent != [] && (forall s :: s in sent ==> GoodId(s)) && Distinct(sent)
    requires forall s :: s in sent[1..] ==> GoodId(s)
    requires var rest, a := sent[1..], FromFrames(CallFrames(sent[0]));
             && Only(FromFrames(OneByOne(sent)), i) == Only(a, i) + Only(FromFrames(OneByOne(rest)), i)
             && (sent[0].index == i ==> Only(a, i) == a && PiecesOf(a, sent[0]))
             && (sent[0].index != i ==> Only(a, i) == [])
             && (forall k :: 0 <= k < |rest| && rest[k].index == i ==> PiecesOf(Only(FromFrames(OneByOne(rest)), i), rest[k]))
             && (Only(FromFrames(OneByOne(rest)), i) != [] ==> exists k :: 0 <= k < |rest| && rest[k].index == i)
    ensures forall k :: 0 <= k < |sent| && sent[k].index == i ==> PiecesOf(Only(FromFrames(OneByOne(sent)), i), sent[k])
    ensures Only(FromFrames(OneByOne(sent)), i) != [] ==> exists k :: 0 <= k < |sent| && sent[k].index == i
  {
    hide GoodId, PiecesOf, CallFrames, FromFrames, OneByOne, Only;
    var rest, a, b := sent[1..], FromFrames(CallFrames(sent[0])), FromFrames(OneByOne(sent[1..]));
    assert forall k :: 0 <= k < |rest| ==> rest[k] == sent[k + 1] && rest[k].index != sent[0].index;
    if sent[0].index == i {
      assert Only(b, i) == [];
      assert a + [] == a;
    } else {
      assert [] + Only(b, i) == Only(b, i);
      forall k | 0 <= k < |sent| && sent[k].index == i
        ensures PiecesOf(Only(b, i), sent[k])
      {
        assert rest[k - 1] == sent[k];
      }
      if k :| 0 <= k < |rest| && rest[k].index == i {
        assert sent[k + 1].index == i;
      }
    }
  }

  /** Part by part, call after call, each closed by its whole message. */
  lemma {:induction false} OneByOneTransmits(sent: seq<Sent>)
    requires forall s :: s in sent ==> GoodId(s)
    requires forall k, l :: 0 <= k < l < |sent| ==> sent[k].index < sent[l].index
    ensures Transmits(OneByOne(sent), sent)
  {
    hide GoodId, PiecesOf, FromFrames, Only, OneByOne;
    forall k | 0 <= k < |sent|
      ensures GoodId(sent[k]) && PiecesOf(Only(FromFrames(OneByOne(sent)), sent[k].index), sent[k])
    {
      assert sent[k] in sent;
      OneByOneOnly(sent, sent[k].index);
    }
    forall i: nat | Only(FromFrames(OneByOne(sent)), i) != []
      ensures exists k :: 0 <= k < |sent| && sent[k].index == i
    {
      OneByOneOnly(sent, i);
    }
  }

  // ---------- all calls in one frame, without an index ----------

  function Together(sent: seq<Sent>): Frame
    requires forall s :: s in sent ==> |s.parts| == 1
  {
    Frame(ToolCalls(seq(|sent|, k requires 0 <= k < |sent| =>
                      assert sent[k] in sent;
                      RawCall(None, Some(sent[k].id), sent[k].name, sent[k].parts[0]))), NoCalls)
  }

  lemma {:induction false} OnlyAt(ps: seq<Piece>, i: nat, from: nat)
    requires forall k :: 0 <= k < |ps| ==> ps[k].index == from + k
    ensures Only(ps, i) == if from <= i < from + |ps| then [ps[i - from]] else []
    decreases |ps|
  {
    if ps != [] {
      forall k | 0 <= k < |ps[1..]|
        ensures ps[1..][k].index == from + 1 + k
      {
        assert ps[1..][k] == ps[k + 1];
      }
      OnlyAt(ps[1..], i, from + 1);
    }
  }

  /** Whole calls in one frame: the position in the list is the index. */
  lemma {:induction false} TogetherTransmits(sent: seq<Sent>)
    requires forall k :: 0 <= k < |sent| ==>
               sent[k].index == k && sent[k].id != "" && |sent[k].parts| == 1 && sent[k].withId == [true]
    ensures (forall s :: s in sent ==> |s.parts| == 1) && Transmits([Together(sent)], sent)
  {
    var frame := Together(sent);
    var ps := FromFrame(frame);
    assert [frame][1..] == [] && FromFrames([frame]) == ps + [] == ps;
    assert ps == FromCalls(frame.delta.calls, false) + [];
    forall k | 0 <= k < |ps|
      ensures ps[k].index == 0 + k && ps[k].call == RawCall(None, Some(sent[k].id), sent[k].name, sent[k].parts[0])
    {
    }
    forall i: nat
      ensures Only(ps, i) == if i < |ps| then [ps[i]] else []
    {
      OnlyAt(ps, i, 0);
    }
    forall k | 0 <= k < |sent|
      ensures GoodId(sent[k]) && PiecesOf(Only(FromFrames([frame]), sent[k].index), sent[k])
    {
      assert Only(ps, k) == [ps[k]];
    }
  }

  // ---------- the older form ----------

  /** A single function call, without an id: it goes under index 0 and gets a made-up id. */
  lemma {:induction false} OldFormCollects(call: RawCall)
    requires call.id == None
    ensures CollectAll(map[], FromFrames([Frame(FunctionCall(call), NoCalls)]))
         == map[0 := Entry("call_0", call.name, call.args)]
  {
    var frame := Frame(FunctionCall(call), NoCalls);
    assert [frame][1..] == [] && FromFrames([frame]) == [Piece(0, call, false)];
    assert [Piece(0, call, false)][1..] == [];
    assert MADE_UP + Decimal(0) == "call_0";
    assert "" + call.name == call.name && "" + call.args == call.args;
  }
}
