/** The streaming DSML filter of `harness-llm/src/dsml.rs`: what it computes. */
module Dsml {
  import opened Options
  import opened Text
  import opened DsmlMarkers

  /** A parameter value: literal text, or text that is handed to the JSON parser. */
  datatype Arg = Literal(text: string) | Json(text: string)

  /** A parsed invoke block, before tool names are mapped to the registry's. */
  datatype ToolCall = ToolCall(id: string, name: string, args: map<string, Arg>)

  datatype Item = Words(text: string) | Call(call: ToolCall)

  /** `buf` is the held tail outside a block, `capture` the text of an open block. */
  datatype State = State(buf: string, capture: Option<string>, counter: nat)

  const START := State("", None, 0)

  // ---------- one invoke block ----------

  function AttrValue(tag: string, key: string): Option<string> {
    var pat := key + "=\"";
    var at := Find(tag, pat);
    if at == -1 then None
    else
      var rest := tag[at + |pat|..];
      var end := Find(rest, "\"");
      if end == -1 then None else Some(rest[..end])
  }

  function ParamArg(tag: string, value: string): Arg {
    var kind := AttrValue(tag, "string");
    if kind == None || kind == Some("true") then Literal(value) else Json(value)
  }

  function WithParam(args: map<string, Arg>, tag: string, value: string): map<string, Arg> {
    var name := AttrValue(tag, "name");
    if name.Some? then args[name.value := ParamArg(tag, value)] else args
  }

  function Params(rest: string, args: map<string, Arg>): map<string, Arg>
    decreases |rest|
  {
    var open := Find(rest, PARAM_OPEN);
    if open == -1 then args
    else
      var gt := Find(rest[open..], ">");
      if gt == -1 then args
      else
        var tag, body := rest[open..open + gt + 1], rest[open + gt + 1..];
        var end := Find(body, PARAM_CLOSE);
        if end == -1 then args
        else
          Params(body[end + |PARAM_CLOSE|..], WithParam(args, tag, body[..end]))
  }

  function CallId(n: nat): string {
    "dsml-" + Decimal(n)
  }

  /** `parse_invoke`: `None` leaves the counter alone. */
  function ParseInvoke(block: string, counter: nat): Option<ToolCall> {
    if !(INVOKE_OPEN <= block) then None
    else
      var rest := block[|INVOKE_OPEN|..];
      var name := AttrValue(rest, "name");
      if name.None? then None
      else Some(ToolCall(CallId(counter + 1), name.value, Params(rest, map[])))
  }

  // ---------- draining complete invokes ----------

  /** Where the first complete invoke block starts, or -1. */
  function InvokeStart(m: string): (r: int)
    ensures -1 <= r <= |m|
  {
    Find(m, INVOKE_OPEN)
  }

  /** One past the first complete invoke block, or -1 while there is none. */
  function InvokeEnd(m: string): (r: int)
    ensures r == -1 || (0 <= InvokeStart(m) < r <= |m| && r >= |INVOKE_CLOSE| && INVOKE_CLOSE == m[r - |INVOKE_CLOSE|..r])
  {
    var start := InvokeStart(m);
    if start == -1 then -1
    else
      var rel := Find(m[start..], INVOKE_CLOSE);
      if rel == -1 then -1
      else
        assert m[start..][rel..rel + |INVOKE_CLOSE|] == m[start + rel..start + rel + |INVOKE_CLOSE|];
        start + rel + |INVOKE_CLOSE|
  }

  datatype Drained = Drained(calls: seq<ToolCall>, rest: string, counter: nat)

  function Drain(m: string, counter: nat): (d: Drained)
    ensures |d.rest| <= |m| && d.rest == m[|m| - |d.rest|..]
    ensures InvokeEnd(d.rest) == -1
    decreases |m|
  {
    var end := InvokeEnd(m);
    if end == -1 then Drained([], m, counter)
    else
      var call := ParseInvoke(m[InvokeStart(m)..end], counter);
      var d := Drain(m[end..], if call.Some? then counter + 1 else counter);
      Drained((if call.Some? then [call.value] else []) + d.calls, d.rest, d.counter)
  }

  // ---------- holding back ----------

  function Max(a: nat, b: nat): nat {
    if a > b then a else b
  }

  function HoldOpen(s: string): (n: nat)
    ensures n <= |s|
  {
    Max(Max(HoldSuffix(s, OPEN), HoldSuffix(s, ASCII_OPEN)),
        Max(HoldSuffix(s, WIDE_OPEN), HoldSuffix(s, SHORT_OPEN)))
  }

  // ---------- termination of the push loop ----------

  function Tags(s: string): nat {
    multiset(s)['<']
  }

  lemma {:induction false} ReplaceTags(s: string, p: string, r: string)
    requires |p| > 0 && Tags(p) == Tags(r)
    ensures Tags(Replace(s, p, r)) == Tags(s)
    decreases |s|
  {
    if |s| >= |p| {
      if p <= s {
        ReplaceTags(s[|p|..], p, r);
        assert s == p + s[|p|..];
      } else {
        ReplaceTags(s[1..], p, r);
        assert s == [s[0]] + s[1..];
      }
    }
  }

  lemma {:induction false} SegmentTags(p: string)
    requires Segment(p)
    ensures Tags(p) == 1
  {
    assert p == ['<'] + p[1..];
  }

  lemma {:induction false} NormalizeTags(s: string)
    ensures Tags(Normalize(s)) == Tags(s)
  {
    AliasTags();
    hide Tags;
    ReplaceTags(s, WIDE_CLOSER, CLOSER);
    var s1 := Replace(s, WIDE_CLOSER, CLOSER);
    ReplaceTags(s1, WIDE_OPENER, OPENER);
    var s2 := Replace(s1, WIDE_OPENER, OPENER);
    ReplaceTags(s2, ASCII_CLOSER, CLOSER);
    var s3 := Replace(s2, ASCII_CLOSER, CLOSER);
    ReplaceTags(s3, ASCII_OPENER, OPENER);
    var s4 := Replace(s3, ASCII_OPENER, OPENER);
    ReplaceTags(s4, SHORT_OPEN, OPEN);
    ReplaceTags(Replace(s4, SHORT_OPEN, OPEN), SHORT_CLOSE, CLOSE);
  }

  lemma {:induction false} AliasTags()
    ensures Tags(WIDE_CLOSER) == Tags(CLOSER) == Tags(WIDE_OPENER) == Tags(OPENER) == 1
    ensures Tags(ASCII_CLOSER) == Tags(ASCII_OPENER) == Tags(SHORT_OPEN) == Tags(SHORT_CLOSE) == 1
    ensures Tags(OPEN) == Tags(CLOSE) == 1
  {
    AliasesAreSegments();
    TagsAreSegments();
    hide Tags;
    SegmentTags(WIDE_CLOSER);
    SegmentTags(CLOSER);
    SegmentTags(WIDE_OPENER);
    SegmentTags(OPENER);
    SegmentTags(ASCII_CLOSER);
    SegmentTags(ASCII_OPENER);
    SegmentTags(SHORT_OPEN);
    SegmentTags(SHORT_CLOSE);
    SegmentTags(OPEN);
    SegmentTags(CLOSE);
  }

  lemma {:induction false} SplitTags(s: string, i: nat, m: string)
    requires At(s, m, i) && Tags(m) == 1
    ensures Tags(s[i + |m|..]) < Tags(s)
  {
    assert s == s[..i] + m + s[i + |m|..];
  }

  lemma {:induction false} SuffixTags(s: string, i: nat)
    requires i <= |s|
    ensures Tags(s[i..]) <= Tags(s)
  {
    assert s == s[..i] + s[i..];
  }

  // ---------- push and finish ----------

  datatype Pushed = Pushed(st: State, out: seq<Item>)

  /** The outcome of one turn of the loop in `push`. */
  datatype Turn = Done(st: State, out: seq<Item>) | Again(st: State, pending: string, out: seq<Item>)

  function Texts(s: string): seq<Item> {
    if s == [] then [] else [Words(s)]
  }

  function Calls(calls: seq<ToolCall>): seq<Item> {
    seq(|calls|, i requires 0 <= i < |calls| => Call(calls[i]))
  }

  function Held(st: State): string {
    if st.capture.Some? then st.capture.value else st.buf
  }

  /** Text is held outside a block only: opening a block takes the held tail. */
  predicate WellFormed(st: State) {
    st.capture.Some? ==> st.buf == ""
  }

  function BlockTurn(st: State, pending: string): (t: Turn)
    requires st.capture.Some?
  {
    var d := Drain(Normalize(st.capture.value + pending), st.counter);
    var pos := Find(d.rest, CLOSE);
    if pos == -1 then Done(State(st.buf, Some(d.rest), d.counter), Calls(d.calls))
    else Again(State(st.buf, None, d.counter), d.rest[pos + |CLOSE|..], Calls(d.calls))
  }

  function TextTurn(st: State, pending: string): (t: Turn)
    requires st.capture.None?
  {
    var s := Normalize(st.buf + pending);
    var pos := Find(s, OPEN);
    if pos == -1 then
      var cut := |s| - HoldOpen(s);
      Done(State(s[cut..], None, st.counter), Texts(s[..cut]))
    else Again(State("", Some(""), st.counter), s[pos + |OPEN|..], Texts(s[..pos]))
  }

  function OneTurn(st: State, pending: string): (t: Turn) {
    if st.capture.Some? then BlockTurn(st, pending) else TextTurn(st, pending)
  }

  /** Every further turn has at least one '<' fewer to look at. */
  lemma {:induction false} TurnTags(st: State, pending: string)
    requires WellFormed(st) && OneTurn(st, pending).Again?
    ensures WellFormed(OneTurn(st, pending).st)
    ensures Tags(Held(OneTurn(st, pending).st) + OneTurn(st, pending).pending) < Tags(Held(st) + pending)
  {
    hide Normalize, Tags, Drain, Find;
    var t := OneTurn(st, pending);
    assert Held(t.st) + t.pending == t.pending;
    var s := Normalize(Held(st) + pending);
    NormalizeTags(Held(st) + pending);
    if st.capture.Some? {
      RestTags(s, |s| - |Drain(s, st.counter).rest|, CLOSE);
    } else {
      assert s[0..] == s;
      RestTags(s, 0, OPEN);
    }
  }

  lemma {:induction false} RestTags(s: string, from: nat, m: string)
    requires from <= |s| && (m == OPEN || m == CLOSE) && Find(s[from..], m) != -1
    ensures Tags(s[from..][Find(s[from..], m) + |m|..]) < Tags(s)
  {
    AliasTags();
    hide *;
    SuffixTags(s, from);
    SplitTags(s[from..], Find(s[from..], m), m);
  }

  /** The state after, and the items produced by, one `push`. */
  function Push(st: State, pending: string): (r: Pushed)
    requires WellFormed(st)
    ensures WellFormed(r.st)
    decreases Tags(Held(st) + pending)
  {
    match OneTurn(st, pending)
    case Done(st', out) => Pushed(st', out)
    case Again(st', pending', out) =>
      TurnTags(st, pending);
      var r := Push(st', pending');
      Pushed(r.st, out + r.out)
  }

  // ---------- strip_dsml and finish ----------

  function StripBlocks(s: string): (r: string)
    ensures Find(r, OPEN) == -1
    decreases |s|
  {
    var start := Find(s, OPEN);
    if start == -1 then s
    else
      var rel := Find(s[start..], CLOSE);
      if rel == -1 then
        PrefixHasNone(s, OPEN, start);
        s[..start]
      else StripBlocks(s[..start] + s[start + rel + |CLOSE|..])
  }

  /** Cutting at or before the first occurrence leaves none. */
  lemma {:induction false} PrefixHasNone(s: string, p: string, cut: nat)
    requires cut <= |s| && |p| > 0
    requires Find(s, p) == -1 || cut <= Find(s, p)
    ensures Find(s[..cut], p) == -1
  {
    var j := Find(s[..cut], p);
    if j != -1 {
      assert s == s[..cut] + s[cut..];
      AtLeft(s[..cut], s[cut..], p, j);
    }
  }

  /** `strip_dsml` never shows an opening tag, whatever the log contained. */
  function Strip(text: string): (r: string)
    ensures Find(r, OPEN) == -1
  {
    var s := StripBlocks(Normalize(text));
    PrefixHasNone(s, OPEN, |s| - HoldOpen(s));
    s[..|s| - HoldOpen(s)]
  }

  function Finish(st: State): seq<Item> {
    (if st.capture.Some? then Calls(Drain(st.capture.value, st.counter).calls) else []) + Texts(Strip(st.buf))
  }

  /** Feeding a whole stream, piece by piece, and finishing. */
  function Run(st: State, chunks: seq<string>): seq<Item>
    requires WellFormed(st)
    decreases |chunks|
  {
    if chunks == [] then Finish(st)
    else
      var r := Push(st, chunks[0]);
      r.out + Run(r.st, chunks[1..])
  }
}
