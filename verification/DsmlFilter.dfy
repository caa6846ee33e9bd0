/** The filter object and its loops, proved against the functions of module `Dsml`. */
module DsmlFilters {
  import opened Options
  import opened Text
  import opened DsmlMarkers
  import opened Dsml
  import opened DsmlStreaming
  import opened DsmlSafety
  import opened DsmlCuts

  /** The loop of `parse_invoke` over parameter tags. */
  method ScanParams(rest: string) returns (args: map<string, Arg>)
    ensures args == Params(rest, map[])
  {
    hide *;
    args := map[];
    var todo := rest;
    while true
      invariant Params(todo, args) == Params(rest, map[])
      decreases |todo|
    {
      ScanTurn(todo, args);
      var open := Find(todo, PARAM_OPEN);
      FindBounds(todo, PARAM_OPEN);
      if open == -1 { break; }
      var gt := Find(todo[open..], ">");
      FindBounds(todo[open..], ">");
      if gt == -1 { break; }
      var tag, body := todo[open..open + gt + 1], todo[open + gt + 1..];
      var end := Find(body, PARAM_CLOSE);
      FindBounds(body, PARAM_CLOSE);
      if end == -1 { break; }
      args, todo := WithParam(args, tag, body[..end]), body[end + |PARAM_CLOSE|..];
    }
  }

  /** `parse_invoke`: the counter moves only when there is a call. */
  method ParseInvokeBlock(block: string, counter: nat) returns (call: Option<ToolCall>, counter': nat)
    ensures call == ParseInvoke(block, counter)
    ensures counter' == if call.Some? then counter + 1 else counter
  {
    hide Params, AttrValue, CallId;
    if !(INVOKE_OPEN <= block) {
      return None, counter;
    }
    var rest := block[|INVOKE_OPEN|..];
    var name := AttrValue(rest, "name");
    if name.None? {
      return None, counter;
    }
    var args := ScanParams(rest);
    counter' := counter + 1;
    call := Some(ToolCall(CallId(counter'), name.value, args));
  }

  /** One turn of the parameter scan, spelled out. */
  lemma {:induction false} ScanTurn(todo: string, args: map<string, Arg>)
    ensures var open := Find(todo, PARAM_OPEN);
            if open == -1 then Params(todo, args) == args
            else
              var gt := Find(todo[open..], ">");
              if gt == -1 then Params(todo, args) == args
              else
                var tag, body := todo[open..open + gt + 1], todo[open + gt + 1..];
                var end := Find(body, PARAM_CLOSE);
                if end == -1 then Params(todo, args) == args
                else
                  && |PARAM_CLOSE| > 0
                  && Params(todo, args) == Params(body[end + |PARAM_CLOSE|..], WithParam(args, tag, body[..end]))
  {
    hide Find, AttrValue, ParamArg;
  }

  /** `drain_invokes`: takes complete invokes off the front of the captured text. */
  method DrainInvokes(captured: string, counter: nat) returns (calls: seq<ToolCall>, rest: string, counter': nat)
    ensures Drained(calls, rest, counter') == Drain(captured, counter)
  {
    hide Drain, Consumed, ParseInvoke, InvokeEnd, InvokeStart;
    calls, rest, counter' := [], captured, counter;
    assert Prepend([], Drain(captured, counter)) == Drain(captured, counter);
    while InvokeEnd(rest) != -1
      invariant Drain(captured, counter) == Prepend(calls, Drain(rest, counter'))
      decreases |rest|
    {
      var end := InvokeEnd(rest);
      var call, next := ParseInvokeBlock(rest[InvokeStart(rest)..end], counter');
      DrainTurn(calls, rest, counter');
      assert call == FirstCall(rest, counter') && next == CounterAfter(rest, counter');
      if call.Some? {
        calls := calls + [call.value];
      } else {
        assert calls + [] == calls;
      }
      rest, counter' := rest[end..], next;
    }
    NothingDrained(rest, counter');
    assert calls + [] == calls;
  }

  lemma {:induction false} DrainTurn(calls: seq<ToolCall>, m: string, counter: nat)
    requires InvokeEnd(m) != -1
    ensures Prepend(calls, Drain(m, counter))
         == Prepend(calls + CallList(FirstCall(m, counter)), Drain(m[InvokeEnd(m)..], CounterAfter(m, counter)))
  {
    hide Drain, FirstCall, InvokeEnd;
    DrainStep(m, counter);
    Assoc(calls, CallList(FirstCall(m, counter)), Drain(m[InvokeEnd(m)..], CounterAfter(m, counter)).calls);
  }

  /** `strip_dsml`: complete blocks are cut out until none is left. */
  method StripDsml(text: string) returns (s: string)
    ensures s == Strip(text)
  {
    s := Normalize(text);
    while true
      invariant StripBlocks(s) == StripBlocks(Normalize(text))
      decreases |s|
    {
      var start := Find(s, OPEN);
      if start == -1 { break; }
      var rel := Find(s[start..], CLOSE);
      if rel == -1 {
        PrefixHasNone(s, OPEN, start);
        s := s[..start];
        break;
      }
      s := s[..start] + s[start + rel + |CLOSE|..];
    }
    assert s == StripBlocks(Normalize(text));
    s := s[..|s| - HoldOpen(s)];
  }

  /** How one turn of the loop contributes to a push. */
  lemma {:induction false} PushTurn(st: State, pending: string, out: seq<Item>)
    requires WellFormed(st)
    ensures var t := OneTurn(st, pending);
            && WellFormed(t.st)
            && (t.Done? ==> Push(st, pending).st == t.st && out + Push(st, pending).out == out + t.out)
            && (t.Again? ==>
                  && Tags(Held(t.st) + t.pending) < Tags(Held(st) + pending)
                  && Push(st, pending).st == Push(t.st, t.pending).st
                  && out + Push(st, pending).out == (out + t.out) + Push(t.st, t.pending).out)
  {
    hide BlockTurn, TextTurn, Tags;
    var t := OneTurn(st, pending);
    TurnKeepsForm(st, pending);
    if t.Again? {
      TurnTags(st, pending);
      Assoc(out, t.out, Push(t.st, t.pending).out);
    }
  }

  lemma {:induction false} TurnKeepsForm(st: State, pending: string)
    requires WellFormed(st)
    ensures WellFormed(OneTurn(st, pending).st)
  {
  }

  /** The filter of one stream. */
  class DsmlFilter {
    var buf: string
    var capture: Option<string>
    var counter: nat

    ghost function Value(): State
      reads this
    {
      State(buf, capture, counter)
    }

    constructor ()
      ensures Value() == START
    {
      buf, capture, counter := "", None, 0;
    }

    /** One turn of the loop in `push`, inside a block. */
    method TurnInBlock(pending: string) returns (more: bool, pending': string, out: seq<Item>)
      requires capture.Some?
      modifies this
      ensures BlockTurn(old(Value()), pending) == if more then Again(Value(), pending', out) else Done(Value(), out)
    {
      hide Normalize, Find, Drain, Calls;
      var calls, rest, counter' := DrainInvokes(Normalize(capture.value + pending), counter);
      counter := counter';
      var pos := Find(rest, CLOSE);
      FindBounds(rest, CLOSE);
      if pos == -1 {
        capture := Some(rest);
        return false, "", Calls(calls);
      }
      capture := None;
      return true, rest[pos + |CLOSE|..], Calls(calls);
    }

    /** One turn of the loop in `push`, outside a block. */
    method TurnInText(pending: string) returns (more: bool, pending': string, out: seq<Item>)
      requires capture.None?
      modifies this
      ensures TextTurn(old(Value()), pending) == if more then Again(Value(), pending', out) else Done(Value(), out)
    {
      hide Normalize, Find, HoldOpen, Texts;
      var s := Normalize(buf + pending);
      var pos := Find(s, OPEN);
      FindBounds(s, OPEN);
      if pos == -1 {
        var cut := |s| - HoldOpen(s);
        buf := s[cut..];
        return false, "", Texts(s[..cut]);
      }
      buf, capture := "", Some("");
      return true, s[pos + |OPEN|..], Texts(s[..pos]);
    }

    /** `push`: everything that is certain by now. */
    method PushText(text: string) returns (out: seq<Item>)
      requires WellFormed(Value())
      modifies this
      ensures WellFormed(Value())
      ensures Pushed(Value(), out) == Push(old(Value()), text)
    {
      hide Push, BlockTurn, TextTurn, Tags;
      out := [];
      var pending, more := text, true;
      assert [] + Push(Value(), text).out == Push(Value(), text).out;
      while more
        invariant WellFormed(Value())
        invariant more ==> Push(old(Value()), text) == Pushed(Push(Value(), pending).st, out + Push(Value(), pending).out)
        invariant !more ==> Push(old(Value()), text) == Pushed(Value(), out)
        decreases more, Tags(Held(Value()) + pending)
      {
        PushTurn(Value(), pending, out);
        var items;
        if capture.Some? {
          more, pending, items := TurnInBlock(pending);
        } else {
          more, pending, items := TurnInText(pending);
        }
        out := out + items;
      }
    }

    /** `finish`: the flush at the end of the stream. */
    method FinishStream() returns (out: seq<Item>)
      modifies this
      ensures out == Finish(old(Value()))
      ensures buf == "" && capture == None
    {
      out := [];
      if capture.Some? {
        var calls, _, counter' := DrainInvokes(capture.value, counter);
        out := Calls(calls);
        counter := counter';
        capture := None;
      }
      var cleaned := StripDsml(buf);
      buf := "";
      out := out + Texts(cleaned);
    }
  }

  /** Any stream, pushed chunk by chunk and finished. If its blocks are closed for good and no
      closing alias starts in visible text, the consumer sees its meaning, whatever the chunks. */
  method FilterStream(chunks: seq<string>) returns (out: seq<Item>)
    ensures out == Run(START, chunks)
    ensures var w := Concat(chunks);
            SafeText(Normalize(w)) && Sheltered(false, w) ==> Events(out) == TextMeaning(Normalize(w), 0)
  {
    hide Normalize, SafeText, Sheltered, TextMeaning, Finish, Push, Events;
    var filter := new DsmlFilter();
    out := [];
    for i := 0 to |chunks|
      invariant WellFormed(filter.Value())
      invariant Run(START, chunks) == out + Run(filter.Value(), chunks[i..])
    {
      var items := filter.PushText(chunks[i]);
      assert chunks[i..][1..] == chunks[i + 1..];
      Assoc(out, items, Run(filter.Value(), chunks[i + 1..]));
      out := out + items;
    }
    var last := filter.FinishStream();
    out := out + last;
    if SafeText(Normalize(Concat(chunks))) && Sheltered(false, Concat(chunks)) {
      IdleSees(chunks, 0);
    }
  }
}
