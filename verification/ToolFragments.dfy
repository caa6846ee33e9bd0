/** Assembly of streamed tool calls (`harness-llm/src/openai_compat.rs`). */
module ToolFragments {
  import opened Options
  import opened Text
  import opened Lines

  // ---------- what a frame carries ----------

  /** One call or part of one, as a frame shows it; `name` and `args` are "" when absent. */
  datatype RawCall = RawCall(index: Option<nat>, id: Option<string>, name: string, args: string)

  datatype Payload = NoCalls | ToolCalls(calls: seq<RawCall>) | FunctionCall(call: RawCall)

  /** `delta` adds to what is there, `message` is a snapshot of the whole. */
  datatype Frame = Frame(delta: Payload, message: Payload)

  datatype Piece = Piece(index: nat, call: RawCall, snapshot: bool)

  /** A call without an index takes the place it has in its list. */
  function FromCalls(calls: seq<RawCall>, snapshot: bool): seq<Piece> {
    seq(|calls|, i requires 0 <= i < |calls| =>
      Piece(if calls[i].index.Some? then calls[i].index.value else i, calls[i], snapshot))
  }

  function FromPayload(payload: Payload, snapshot: bool): seq<Piece> {
    match payload
    case NoCalls => []
    case ToolCalls(calls) => FromCalls(calls, snapshot)
    case FunctionCall(call) => [Piece(0, call, snapshot)]
  }

  function FromFrame(frame: Frame): seq<Piece> {
    FromPayload(frame.delta, false) + FromPayload(frame.message, true)
  }

  // ---------- one call under assembly ----------

  datatype Entry = Entry(id: string, name: string, args: string)

  const MADE_UP := "call_"

  function IdOf(p: Piece): string {
    match p.call.id
    case Some(id) => if id == "" then MADE_UP + Decimal(p.index) else id
    case None => MADE_UP + Decimal(p.index)
  }

  function NewId(was: string, id: string, snapshot: bool): string {
    if (snapshot || MADE_UP <= was) && !(MADE_UP <= id) then id else was
  }

  function Absorb(was: Option<Entry>, p: Piece): Entry {
    var id := IdOf(p);
    var entry := if was.Some? then was.value else Entry(id, "", "");
    if p.snapshot then
      Entry(NewId(entry.id, id, true),
            if p.call.name != "" then p.call.name else entry.name,
            if p.call.args != "" then p.call.args else entry.args)
    else
      Entry(NewId(entry.id, id, false), entry.name + p.call.name, entry.args + p.call.args)
  }

  type Tools = map<nat, Entry>

  function Lookup(tools: Tools, index: nat): Option<Entry> {
    if index in tools then Some(tools[index]) else None
  }

  function Collect(tools: Tools, p: Piece): Tools {
    tools[p.index := Absorb(Lookup(tools, p.index), p)]
  }

  function CollectAll(tools: Tools, pieces: seq<Piece>): Tools
    decreases |pieces|
  {
    if pieces == [] then tools else CollectAll(Collect(tools, pieces[0]), pieces[1..])
  }

  // ---------- calls do not disturb each other ----------

  function Only(pieces: seq<Piece>, index: nat): seq<Piece> {
    if pieces == [] then []
    else (if pieces[0].index == index then [pieces[0]] else []) + Only(pieces[1..], index)
  }

  function AbsorbAll(was: Option<Entry>, pieces: seq<Piece>): Option<Entry>
    decreases |pieces|
  {
    if pieces == [] then was else AbsorbAll(Some(Absorb(was, pieces[0])), pieces[1..])
  }

  /** What is assembled under an index depends on the pieces with that index alone. */
  lemma {:induction false} PerIndex(tools: Tools, pieces: seq<Piece>, index: nat)
    ensures Lookup(CollectAll(tools, pieces), index) == AbsorbAll(Lookup(tools, index), Only(pieces, index))
    decreases |pieces|
  {
    hide Absorb;
    if pieces != [] {
      PerIndex(Collect(tools, pieces[0]), pieces[1..], index);
      if pieces[0].index == index {
        assert Only(pieces, index)[1..] == Only(pieces[1..], index);
      } else {
        assert Only(pieces, index) == Only(pieces[1..], index);
      }
    }
  }

  lemma {:induction false} SameLookups(a: Tools, b: Tools)
    requires forall i :: Lookup(a, i) == Lookup(b, i)
    ensures a == b
  {
    forall i: nat
      ensures i in a <==> i in b
      ensures i in a && i in b ==> a[i] == b[i]
    {
      assert Lookup(a, i) == Lookup(b, i);
    }
  }

  /** Two streams in which each call's own pieces come in the same order assemble the same. */
  lemma {:induction false} AnyInterleaving(tools: Tools, pieces: seq<Piece>, pieces': seq<Piece>)
    requires forall i :: Only(pieces, i) == Only(pieces', i)
    ensures CollectAll(tools, pieces) == CollectAll(tools, pieces')
  {
    hide Only, CollectAll, AbsorbAll;
    forall i
      ensures Lookup(CollectAll(tools, pieces), i) == Lookup(CollectAll(tools, pieces'), i)
    {
      PerIndex(tools, pieces, i);
      PerIndex(tools, pieces', i);
    }
    SameLookups(CollectAll(tools, pieces), CollectAll(tools, pieces'));
  }

  // ---------- cutting ----------

  /** The later parts of a call whose name and arguments arrive in several pieces: the id may be
      repeated or left out. */
  function Tail(index: nat, id: Option<string>, parts: seq<string>): seq<Piece> {
    if parts == [] then []
    else [Piece(index, RawCall(Some(index), id, "", parts[0]), false)] + Tail(index, id, parts[1..])
  }

  lemma {:induction false} TailAbsorbs(entry: Entry, index: nat, id: Option<string>, parts: seq<string>)
    requires id == None || !(MADE_UP <= entry.id) || MADE_UP <= IdOf(Piece(index, RawCall(None, id, "", ""), false))
    ensures AbsorbAll(Some(entry), Tail(index, id, parts)) == Some(entry.(args := entry.args + Concat(parts)))
    decreases |parts|
  {
    if parts == [] {
      assert entry.args + "" == entry.args;
    } else {
      var tail := Tail(index, id, parts);
      var next := entry.(args := entry.args + parts[0]);
      assert tail[1..] == Tail(index, id, parts[1..]);
      KeepsId(entry.id, tail[0]);
      assert Absorb(Some(entry), tail[0]) == next;
      TailAbsorbs(next, index, id, parts[1..]);
      Assoc(entry.args, parts[0], Concat(parts[1..]));
    }
  }

  lemma {:induction false} KeepsId(was: string, p: Piece)
    requires !p.snapshot && (p.call.id == None || !(MADE_UP <= was) || MADE_UP <= IdOf(p))
    ensures NewId(was, IdOf(p), false) == was
  {
  }

  /** However an argument string is cut, the assembled call is that of the whole string. */
  lemma {:induction false} AnyCutting(tools: Tools, first: Piece, parts: seq<string>, id: Option<string>)
    requires !first.snapshot && first.index !in tools && parts != [] && (id == None || id == first.call.id)
    requires first.call.args == parts[0]
    ensures CollectAll(tools, [first] + Tail(first.index, id, parts[1..]))
            == Collect(tools, first.(call := first.call.(args := Concat(parts))))
  {
    hide Concat, Tail;
    var rest := Tail(first.index, id, parts[1..]);
    var entry := Absorb(None, first);
    var whole := first.(call := first.call.(args := Concat(parts)));
    TailAbsorbs(entry, first.index, id, parts[1..]);
    ConcatCons(parts);
    assert ([first] + rest)[1..] == rest;
    CollectOne(Collect(tools, first), first.index, rest);
    TailIndex(first.index, id, parts[1..]);
    var done := entry.(args := Concat(parts));
    assert Absorb(None, whole) == done by {
      assert "" + Concat(parts) == Concat(parts) && "" + parts[0] == parts[0];
    }
    assert entry.args == parts[0];
    assert AbsorbAll(Some(entry), rest) == Some(done);
    assert Collect(tools, first) == tools[first.index := entry];
    assert Collect(tools, first)[first.index := done] == tools[first.index := done];
    assert Collect(tools, whole) == tools[first.index := done];
  }

  lemma {:induction false} ConcatCons(parts: seq<string>)
    requires parts != []
    ensures Concat(parts) == parts[0] + Concat(parts[1..])
  {
  }

  lemma {:induction false} TailIndex(index: nat, id: Option<string>, parts: seq<string>)
    ensures forall p :: p in Tail(index, id, parts) ==> p.index == index
  {
    if parts != [] {
      TailIndex(index, id, parts[1..]);
    }
  }

  lemma {:induction false} CollectOne(tools: Tools, index: nat, pieces: seq<Piece>)
    requires index in tools
    ensures (forall p :: p in pieces ==> p.index == index) ==>
              AbsorbAll(Some(tools[index]), pieces).Some?
              && CollectAll(tools, pieces) == tools[index := AbsorbAll(Some(tools[index]), pieces).value]
    decreases |pieces|
  {
    hide Absorb;
    if pieces == [] {
      assert tools[index := tools[index]] == tools;
    } else if forall p :: p in pieces ==> p.index == index {
      assert pieces[0] in pieces;
      CollectOne(Collect(tools, pieces[0]), index, pieces[1..]);
    }
  }

  // ---------- snapshots ----------

  /** A closing snapshot changes nothing exactly when it says nothing new: its id is the known one
      or made up, and its name and arguments are the known ones or absent. */
  lemma {:induction false} SnapshotNoOpIff(tools: Tools, p: Piece)
    requires p.snapshot && p.index in tools
    ensures var e := tools[p.index];
            Collect(tools, p) == tools <==>
              && (IdOf(p) == e.id || MADE_UP <= IdOf(p))
              && (p.call.name == e.name || p.call.name == "")
              && (p.call.args == e.args || p.call.args == "")
  {
    var e := tools[p.index];
    assert Collect(tools, p) == tools <==> Absorb(Some(e), p) == e by {
      assert Collect(tools, p)[p.index] == Absorb(Some(e), p);
    }
  }

  // ---------- the end of the stream ----------

  datatype ParseError = ParseError(eof: bool, message: string)

  /** What the JSON parser says about an argument string. */
  datatype Parsed<V> = Value(value: V) | Broken(error: ParseError)

  datatype Call<V> = Call(id: string, name: string, args: V)

  datatype AssemblyError =
    | NamelessCall(id: string)
    | BadArguments(name: string, error: ParseError)

  datatype Result<V> = Ok(calls: seq<Call<V>>) | Err(error: AssemblyError)

  /** The parser, and the value that stands for no arguments. */
  datatype Json<!V> = Json(parse: string -> Parsed<V>, empty: V)

  function ParseArguments<V>(json: Json<V>, args: string): Parsed<V> {
    if Trim(args) == "" then Value(json.empty) else json.parse(args)
  }

  predicate Complete<V>(json: Json<V>, e: Entry) {
    Trim(e.name) != "" && ParseArguments(json, e.args).Value?
  }

  function ToCall<V>(json: Json<V>, e: Entry): Call<V>
    requires Complete(json, e)
  {
    Call(e.id, e.name, ParseArguments(json, e.args).value)
  }

  function Fault<V>(json: Json<V>, e: Entry): AssemblyError
    requires !Complete(json, e)
  {
    if Trim(e.name) == "" then NamelessCall(e.id) else BadArguments(e.name, ParseArguments(json, e.args).error)
  }

  ghost predicate IsOrder(tools: Tools, order: seq<nat>) {
    && (forall i, j :: 0 <= i < j < |order| ==> order[i] < order[j])
    && (forall i: nat :: i in order <==> i in tools)
  }

  /** All calls in index order, or the fault of the first call that has one: a single broken
      argument string yields no call at all. */
  ghost predicate Finished<V>(json: Json<V>, tools: Tools, order: seq<nat>, result: Result<V>) {
    && IsOrder(tools, order)
    && match result
       case Ok(calls) =>
         && |calls| == |order|
         && forall k :: 0 <= k < |order| ==>
              Complete(json, tools[order[k]]) && calls[k] == ToCall(json, tools[order[k]])
       case Err(error) =>
         exists k :: FirstFault(json, tools, order, k) && error == Fault(json, tools[order[k]])
  }

  ghost predicate FirstFault<V>(json: Json<V>, tools: Tools, order: seq<nat>, k: int)
    requires IsOrder(tools, order)
  {
    && 0 <= k < |order| && !Complete(json, tools[order[k]])
    && forall j :: 0 <= j < k ==> Complete(json, tools[order[j]])
  }

  method LeastIndex(keys: set<nat>) returns (least: nat)
    requires keys != {}
    ensures least in keys && forall k :: k in keys ==> least <= k
  {
    least :| least in keys;
    var left := keys - {least};
    while left != {}
      invariant left <= keys && least in keys
      invariant forall k :: k in keys ==> k in left || least <= k
      decreases left
    {
      var k :| k in left;
      left := left - {k};
      if k < least {
        least := k;
      }
    }
  }

  method OrderOf(tools: Tools) returns (order: seq<nat>)
    ensures IsOrder(tools, order)
  {
    order := [];
    var left := tools.Keys;
    while left != {}
      invariant left <= tools.Keys
      invariant forall i, j :: 0 <= i < j < |order| ==> order[i] < order[j]
      invariant forall i: nat :: i in order <==> i in tools && i !in left
      invariant forall i, k :: i in order && k in left ==> i < k
      decreases left
    {
      var least := LeastIndex(left);
      assert forall i :: 0 <= i < |order| ==> order[i] in order;
      order := order + [least];
      left := left - {least};
    }
  }

  method FinishStreamToolCalls<V>(json: Json<V>, tools: Tools) returns (result: Result<V>)
    ensures exists order :: Finished(json, tools, order, result)
  {
    hide Trim;
    var sorted := OrderOf(tools);
    var calls := [];
    for k := 0 to |sorted|
      invariant |calls| == k
      invariant forall j :: 0 <= j < k ==>
                  Complete(json, tools[sorted[j]]) && calls[j] == ToCall(json, tools[sorted[j]])
    {
      assert sorted[k] in sorted;
      var e := tools[sorted[k]];
      if Trim(e.name) == "" {
        assert FirstFault(json, tools, sorted, k);
        result := Err(NamelessCall(e.id));
        assert Finished(json, tools, sorted, result);
        return;
      }
      match ParseArguments(json, e.args) {
        case Broken(error) =>
          assert FirstFault(json, tools, sorted, k);
          result := Err(BadArguments(e.name, error));
          assert Finished(json, tools, sorted, result);
          return;
        case Value(value) =>
          calls := calls + [Call(e.id, e.name, value)];
      }
    }
    result := Ok(calls);
    assert Finished(json, tools, sorted, result);
  }

  lemma {:induction false} OrderUnique(tools: Tools, a: seq<nat>, b: seq<nat>)
    requires IsOrder(tools, a) && IsOrder(tools, b)
    ensures a == b
  {
    AscendingUnique(a, b);
  }

  lemma {:induction false} AscendingUnique(a: seq<nat>, b: seq<nat>)
    requires forall i, j :: 0 <= i < j < |a| ==> a[i] < a[j]
    requires forall i, j :: 0 <= i < j < |b| ==> b[i] < b[j]
    requires forall i :: i in a <==> i in b
    ensures a == b
    decreases |a|
  {
    HeadIn(a);
    HeadIn(b);
    if a != [] {
      assert a[0] in b && b[0] in a;
      var i :| 0 <= i < |b| && b[i] == a[0];
      var j :| 0 <= j < |a| && a[j] == b[0];
      assert a[0] == b[0];
      forall x
        ensures x in a[1..] <==> x in b[1..]
      {
        assert x in a <==> x == a[0] || x in a[1..];
        assert x in b <==> x == b[0] || x in b[1..];
        assert a[0] !in a[1..] && b[0] !in b[1..];
      }
      AscendingUnique(a[1..], b[1..]);
    }
  }

  lemma {:induction false} HeadIn(s: seq<nat>)
    ensures s == [] || s[0] in s
  {
  }

  /** The assembled calls decide the outcome. */
  lemma {:induction false} FinishedUnique<V>(json: Json<V>, tools: Tools, o: seq<nat>, o': seq<nat>,
                                             r: Result<V>, r': Result<V>)
    requires Finished(json, tools, o, r) && Finished(json, tools, o', r')
    ensures r == r'
  {
    hide Complete, Fault, ToCall;
    OrderUnique(tools, o, o');
    if r.Err? && r'.Err? {
      var k :| FirstFault(json, tools, o, k) && r.error == Fault(json, tools[o[k]]);
      var l :| FirstFault(json, tools, o, l) && r'.error == Fault(json, tools[o[l]]);
      assert k == l;
    } else if r.Ok? && r'.Ok? {
      assert r.calls == r'.calls;
    }
  }

  /** Fail closed: one call that is not complete leaves no call. */
  lemma {:induction false} OneBadCallEnds<V>(json: Json<V>, tools: Tools, order: seq<nat>, result: Result<V>)
    requires Finished(json, tools, order, result)
    ensures result.Ok? <==> forall i :: i in tools ==> Complete(json, tools[i])
  {
    hide Complete, Fault, ToCall;
    if result.Ok? {
      forall i | i in tools
        ensures Complete(json, tools[i])
      {
        assert i in order;
      }
    } else {
      var k :| FirstFault(json, tools, order, k);
      assert order[k] in order;
    }
  }

  // ---------- the whole stream ----------

  function FromFrames(frames: seq<Frame>): seq<Piece> {
    if frames == [] then [] else FromFrame(frames[0]) + FromFrames(frames[1..])
  }

  lemma {:induction false} CollectAppend(tools: Tools, a: seq<Piece>, b: seq<Piece>)
    ensures CollectAll(tools, a + b) == CollectAll(CollectAll(tools, a), b)
    decreases |a|
  {
    hide Collect;
    if a == [] {
      assert a + b == b;
    } else {
      assert (a + b)[1..] == a[1..] + b;
      CollectAppend(Collect(tools, a[0]), a[1..], b);
    }
  }

  method CollectPayload(payload: Payload, was: Tools, snapshot: bool) returns (tools: Tools)
    ensures tools == CollectAll(was, FromPayload(payload, snapshot))
  {
    hide Collect;
    tools := was;
    match payload {
      case NoCalls =>
      case FunctionCall(call) =>
        tools := Collect(tools, Piece(0, call, snapshot));
        assert FromPayload(payload, snapshot)[1..] == [];
      case ToolCalls(calls) =>
        ghost var pieces := FromCalls(calls, snapshot);
        for i := 0 to |calls|
          invariant CollectAll(was, pieces) == CollectAll(tools, pieces[i..])
        {
          assert pieces[i..][1..] == pieces[i + 1..];
          var index := if calls[i].index.Some? then calls[i].index.value else i;
          tools := Collect(tools, Piece(index, calls[i], snapshot));
        }
    }
  }

  method CollectStream(frames: seq<Frame>) returns (tools: Tools)
    ensures tools == CollectAll(map[], FromFrames(frames))
  {
    tools := map[];
    for i := 0 to |frames|
      invariant CollectAll(map[], FromFrames(frames)) == CollectAll(tools, FromFrames(frames[i..]))
    {
      hide Collect, FromPayload;
      assert frames[i..][1..] == frames[i + 1..];
      CollectAppend(tools, FromFrame(frames[i]), FromFrames(frames[i + 1..]));
      CollectAppend(tools, FromPayload(frames[i].delta, false), FromPayload(frames[i].message, true));
      tools := CollectPayload(frames[i].delta, tools, false);
      tools := CollectPayload(frames[i].message, tools, true);
    }
  }

  /** From frames to calls: two streams that agree call by call end the same way. */
  lemma {:induction false} StreamsAgree<V>(json: Json<V>, frames: seq<Frame>, frames': seq<Frame>,
                                           o: seq<nat>, o': seq<nat>, r: Result<V>, r': Result<V>)
    requires forall i :: Only(FromFrames(frames), i) == Only(FromFrames(frames'), i)
    requires Finished(json, CollectAll(map[], FromFrames(frames)), o, r)
    requires Finished(json, CollectAll(map[], FromFrames(frames')), o', r')
    ensures r == r'
  {
    hide Finished, CollectAll, FromFrames, Only;
    AnyInterleaving(map[], FromFrames(frames), FromFrames(frames'));
    FinishedUnique(json, CollectAll(map[], FromFrames(frames)), o, o', r, r');
  }
}
