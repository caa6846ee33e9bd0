/** From frames to calls: what a provider sent is what comes out, field by field. */
module ToolCalls {
  import opened Options
  import opened Text
  import opened Lines
  import opened ToolFragments

  /** A call as a provider sends it: its argument string in parts, and for each part whether it
      carries the id. The name comes with the first part. */
  datatype Sent = Sent(index: nat, id: string, name: string, parts: seq<string>, withId: seq<bool>)

  function Arguments(s: Sent): string {
    Concat(s.parts)
  }

  /** The id comes with the first part, or later as one that is no made-up id. */
  predicate GoodId(s: Sent) {
    && s.id != "" && s.parts != [] && |s.withId| == |s.parts|
    && (s.withId[0] || (!(MADE_UP <= s.id) && true in s.withId))
  }

  /** `p` carries part `j`. */
  predicate Carries(p: Piece, s: Sent, j: nat)
    requires j < |s.parts| == |s.withId|
  {
    && p.index == s.index && !p.snapshot
    && (if s.withId[j] then p.call.id == Some(s.id) else p.call.id == None || p.call.id == Some(""))
    && p.call.name == (if j == 0 then s.name else "")
    && p.call.args == s.parts[j]
  }

  /** A closing snapshot of the whole call, in full or with fields left out. */
  predicate Repeats(p: Piece, s: Sent) {
    && p.index == s.index && p.snapshot
    && (p.call.id == Some(s.id) || p.call.id == None || p.call.id == Some(""))
    && (p.call.name == s.name || p.call.name == "")
    && (p.call.args == Arguments(s) || p.call.args == "")
  }

  /** The pieces of one call: its parts in order, and a closing snapshot or none. */
  predicate PiecesOf(ps: seq<Piece>, s: Sent)
    requires GoodId(s)
  {
    var n := |s.parts|;
    && n <= |ps| <= n + 1
    && (forall j :: 0 <= j < n ==> Carries(ps[j], s, j))
    && (|ps| == n + 1 ==> Repeats(ps[n], s))
  }

  /** The frames carry exactly these calls, in any framing and interleaving. */
  ghost predicate Transmits(frames: seq<Frame>, sent: seq<Sent>) {
    && (forall k, l :: 0 <= k < l < |sent| ==> sent[k].index < sent[l].index)
    && (forall k :: 0 <= k < |sent| ==> GoodId(sent[k]) && PiecesOf(Only(FromFrames(frames), sent[k].index), sent[k]))
    && (forall i: nat :: Only(FromFrames(frames), i) != [] ==> exists k :: 0 <= k < |sent| && sent[k].index == i)
  }

  // ---------- one call ----------

  /** The id known after the first `j` parts. */
  function IdAfter(s: Sent, j: nat): string
    requires j <= |s.withId|
  {
    if true in s.withId[..j] then s.id else MADE_UP + Decimal(s.index)
  }

  lemma {:induction false} IdGrows(s: Sent, j: nat)
    requires GoodId(s) && 0 < j < |s.parts|
    ensures s.withId[j] ==> IdAfter(s, j + 1) == s.id
    ensures !s.withId[j] ==> IdAfter(s, j + 1) == IdAfter(s, j)
    ensures IdAfter(s, j) == s.id || !(MADE_UP <= s.id)
  {
    assert s.withId[..j + 1] == s.withId[..j] + [s.withId[j]];
    if s.withId[0] {
      assert s.withId[..j][0];
    }
  }

  lemma {:induction false} MadeUpStarts(s: Sent)
    ensures MADE_UP <= MADE_UP + Decimal(s.index)
  {
  }

  /** What is assembled after the first `j` parts. */
  function EntryAfter(s: Sent, j: nat): Entry
    requires j <= |s.withId| == |s.parts|
  {
    Entry(IdAfter(s, j), s.name, Concat(s.parts[..j]))
  }

  lemma {:induction false} ConcatMore(parts: seq<string>, j: nat)
    requires j < |parts|
    ensures Concat(parts[..j + 1]) == Concat(parts[..j]) + parts[j]
  {
    if j == 0 {
      assert parts[..1][1..] == [];
      assert parts[0] + "" == parts[0] == "" + parts[0];
    } else {
      ConcatMore(parts[1..], j - 1);
      assert parts[1..][..j] == parts[..j + 1][1..] && parts[1..][..j - 1] == parts[..j][1..];
      Assoc(parts[0], Concat(parts[1..][..j - 1]), parts[j]);
    }
  }

  lemma {:induction false} FirstPart(p: Piece, s: Sent)
    requires GoodId(s) && Carries(p, s, 0)
    ensures Absorb(None, p) == EntryAfter(s, 1)
  {
    ConcatMore(s.parts, 0);
    assert s.withId[..1] == [s.withId[0]];
    assert s.parts[..0] == [] && "" + s.name == s.name && "" + s.parts[0] == s.parts[0];
  }

  lemma {:induction false} NextPart(p: Piece, s: Sent, j: nat)
    requires GoodId(s) && 0 < j < |s.parts| && Carries(p, s, j)
    ensures Absorb(Some(EntryAfter(s, j)), p) == EntryAfter(s, j + 1)
  {
    ConcatMore(s.parts, j);
    IdGrows(s, j);
    MadeUpStarts(s);
    hide IdAfter, Concat, Decimal, GoodId;
    assert s.name + "" == s.name;
  }

  lemma {:induction false} PartsAbsorb(ps: seq<Piece>, s: Sent, j: nat)
    requires GoodId(s) && 0 < j <= |s.parts| <= |ps|
    requires forall i :: 0 <= i < |s.parts| ==> Carries(ps[i], s, i)
    ensures AbsorbAll(Some(EntryAfter(s, j)), ps[j..]) == AbsorbAll(Some(EntryAfter(s, |s.parts|)), ps[|s.parts|..])
    decreases |s.parts| - j
  {
    if j < |s.parts| {
      NextPart(ps[j], s, j);
      hide Absorb, EntryAfter, Carries, GoodId;
      assert ps[j..][0] == ps[j] && ps[j..][1..] == ps[j + 1..];
      PartsAbsorb(ps, s, j + 1);
    }
  }

  lemma {:induction false} EntryAtEnd(s: Sent)
    requires GoodId(s)
    ensures EntryAfter(s, |s.parts|) == Entry(s.id, s.name, Arguments(s))
  {
    assert s.parts[..|s.parts|] == s.parts && s.withId[..|s.parts|] == s.withId;
    assert s.withId[0] ==> true in s.withId;
  }

  lemma {:induction false} SnapshotAdds(p: Piece, s: Sent)
    requires GoodId(s) && Repeats(p, s)
    ensures Absorb(Some(Entry(s.id, s.name, Arguments(s))), p) == Entry(s.id, s.name, Arguments(s))
  {
    MadeUpStarts(s);
    hide Concat, Decimal;
  }

  /** All pieces of a call assemble to its id, its name and its whole argument string: the last known
      id counts, so a late real id takes the place of a made-up one. */
  lemma {:induction false} CallAssembles(ps: seq<Piece>, s: Sent)
    requires GoodId(s) && PiecesOf(ps, s)
    ensures AbsorbAll(None, ps) == Some(Entry(s.id, s.name, Arguments(s)))
  {
    var n := |s.parts|;
    FirstPart(ps[0], s);
    EntryAtEnd(s);
    PartsAbsorb(ps, s, 1);
    hide Absorb, EntryAfter, Carries;
    assert AbsorbAll(None, ps) == AbsorbAll(Some(EntryAfter(s, 1)), ps[1..]);
    if |ps| == n + 1 {
      SnapshotAdds(ps[n], s);
      assert ps[n..] == [ps[n]] && [ps[n]][1..] == [];
    } else {
      assert ps[n..] == [];
    }
  }

  /** Later pieces change a known id only by giving a real one, in a snapshot or for a made-up one;
      an id that itself looks made up is never taken late. */
  lemma {:induction false} LateIdIff(e: Entry, p: Piece)
    ensures Absorb(Some(e), p).id != e.id <==>
              && p.call.id.Some? && p.call.id.value !in {"", e.id} && !(MADE_UP <= p.call.id.value)
              && (p.snapshot || MADE_UP <= e.id)
    ensures Absorb(Some(e), p).id != e.id ==> p.call.id == Some(Absorb(Some(e), p).id)
  {
    hide Decimal;
    assert MADE_UP <= MADE_UP + Decimal(p.index);
  }

  // ---------- all calls ----------

  function Indexes(sent: seq<Sent>): (r: seq<nat>)
    ensures |r| == |sent|
  {
    seq(|sent|, k requires 0 <= k < |sent| => sent[k].index)
  }

  lemma {:induction false} SentAssembles(frames: seq<Frame>, sent: seq<Sent>)
    requires Transmits(frames, sent)
    ensures var tools := CollectAll(map[], FromFrames(frames));
            && IsOrder(tools, Indexes(sent))
            && forall k :: 0 <= k < |sent| ==>
                 sent[k].index in tools && tools[sent[k].index] == Entry(sent[k].id, sent[k].name, Arguments(sent[k]))
  {
    hide PiecesOf, GoodId, Only, AbsorbAll, CollectAll, Arguments;
    var pieces := FromFrames(frames);
    var tools := CollectAll(map[], pieces);
    forall i: nat
      ensures Lookup(tools, i) == AbsorbAll(None, Only(pieces, i))
    {
      PerIndex(map[], pieces, i);
    }
    forall k | 0 <= k < |sent|
      ensures Lookup(tools, sent[k].index) == Some(Entry(sent[k].id, sent[k].name, Arguments(sent[k])))
    {
      CallAssembles(Only(pieces, sent[k].index), sent[k]);
    }
    forall i: nat
      ensures i in Indexes(sent) <==> i in tools
    {
      NothingSent();
      if i in tools {
        assert Only(pieces, i) != [];
      }
      if i in Indexes(sent) {
        var k :| 0 <= k < |sent| && Indexes(sent)[k] == i;
      }
      if k :| 0 <= k < |sent| && sent[k].index == i {
        assert Indexes(sent)[k] == i;
      }
    }
  }

  lemma {:induction false} NothingSent()
    ensures AbsorbAll(None, []) == None
  {
  }

  /** Blank arguments are the empty value; others are left to the parser. */
  predicate Parses<V>(json: Json<V>, args: string) {
    Trim(args) == "" || json.parse(args).Value?
  }

  predicate Usable<V>(json: Json<V>, s: Sent) {
    Trim(s.name) != "" && Parses(json, Arguments(s))
  }

  /** The calls that come out are those that were sent, in index order, with their ids, names and
      parsed arguments, if all of them have a name and arguments that parse. */
  lemma {:induction false} CallsComeOut<V>(json: Json<V>, frames: seq<Frame>, sent: seq<Sent>, order: seq<nat>,
                                           result: Result<V>)
    requires Transmits(frames, sent) && (forall k :: 0 <= k < |sent| ==> Usable(json, sent[k]))
    requires Finished(json, CollectAll(map[], FromFrames(frames)), order, result)
    ensures result.Ok? && |result.calls| == |sent|
    ensures forall k :: 0 <= k < |sent| ==>
              var call, args := result.calls[k], Arguments(sent[k]);
              && call.id == sent[k].id && call.name == sent[k].name
              && (Trim(args) == "" ==> call.args == json.empty)
              && (Trim(args) != "" ==> json.parse(args) == Value(call.args))
  {
    hide Transmits, CollectAll, Trim, Arguments;
    var tools := CollectAll(map[], FromFrames(frames));
    SentAssembles(frames, sent);
    OrderUnique(tools, order, Indexes(sent));
    forall k | 0 <= k < |order|
      ensures Complete(json, tools[order[k]])
    {
      assert order[k] == sent[k].index && Usable(json, sent[k]);
    }
  }

  /** Otherwise no call comes out, and the error names the first call that cannot be used: by its id
      if it has no name, else by its name and with the parser's complaint. */
  lemma {:induction false} FirstBadCallIsNamed<V>(json: Json<V>, frames: seq<Frame>, sent: seq<Sent>, order: seq<nat>,
                                                  result: Result<V>, k: nat)
    requires Transmits(frames, sent) && k < |sent| && !Usable(json, sent[k])
    requires forall j :: 0 <= j < k ==> Usable(json, sent[j])
    requires Finished(json, CollectAll(map[], FromFrames(frames)), order, result)
    ensures Trim(sent[k].name) == "" ==> result == Err(NamelessCall(sent[k].id))
    ensures Trim(sent[k].name) != "" ==>
              result.Err? && result.error.BadArguments?
              && result.error.name == sent[k].name && json.parse(Arguments(sent[k])) == Broken(result.error.error)
  {
    hide Transmits, CollectAll, Trim, Arguments;
    var tools := CollectAll(map[], FromFrames(frames));
    SentAssembles(frames, sent);
    OrderUnique(tools, order, Indexes(sent));
    assert forall j :: 0 <= j < |order| ==> order[j] == sent[j].index && (Complete(json, tools[order[j]]) <==> Usable(json, sent[j]));
    assert result.Err?;
    var l :| FirstFault(json, tools, order, l) && result.error == Fault(json, tools[order[l]]);
    assert l == k;
  }
}
