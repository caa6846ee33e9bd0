/** Server-sent event framing of `harness-llm/src/sse.rs`. */
module Sse {
  import opened Options
  import opened Text
  import opened Lines

  // ---------- one event ----------

  function Join(parts: seq<string>): string {
    if parts == [] then ""
    else if |parts| == 1 then parts[0]
    else parts[0] + "\n" + Join(parts[1..])
  }

  const DATA := "data:"

  /** What one line contributes; comments and other fields contribute nothing. */
  function Payload(line: string): seq<string> {
    if DATA <= line then [Trim(line[|DATA|..])] else []
  }

  function Payloads(lines: seq<string>): seq<string> {
    if lines == [] then [] else Payload(lines[0]) + Payloads(lines[1..])
  }

  /** `event_data`: the `data:` lines of an event, joined. */
  function EventData(raw: string): string {
    Trim(Join(Payloads(LinesOf(raw))))
  }

  /** A data frame, or a heartbeat. */
  function Frame(raw: string): Option<string> {
    if EventData(raw) == "" then None else Some(EventData(raw))
  }

  method ReadEventData(raw: string) returns (data: string)
    ensures data == EventData(raw)
  {
    hide Trim, LinesOf, Join;
    var parts: seq<string> := [];
    var lines := LinesOf(raw);
    for i := 0 to |lines|
      invariant Payloads(lines) == parts + Payloads(lines[i..])
    {
      assert lines[i..][1..] == lines[i + 1..];
      Assoc(parts, Payload(lines[i]), Payloads(lines[i + 1..]));
      if DATA <= lines[i] {
        parts := parts + [Trim(lines[i][|DATA|..])];
      } else {
        assert parts + [] == parts;
      }
    }
    assert parts + [] == parts;
    data := Trim(Join(parts));
  }

  // ---------- events in a buffer ----------

  datatype Drained = Drained(events: seq<string>, rest: string)

  const BLANK := "\n\n"

  /** `drain_events`: complete events end with a blank line. */
  function Drain(s: string): (d: Drained)
    ensures |d.rest| <= |s| && d.rest == s[|s| - |d.rest|..]
    ensures Find(d.rest, BLANK) == -1
    decreases |s|
  {
    var pos := Find(s, BLANK);
    if pos == -1 then Drained([], s)
    else
      var d := Drain(s[pos + 2..]);
      Drained([s[..pos + 2]] + d.events, d.rest)
  }

  lemma {:induction false} DrainNext(s: string)
    ensures Find(s, BLANK) == -1 ==> Drain(s) == Drained([], s)
    ensures Find(s, BLANK) != -1 ==>
              var pos := Find(s, BLANK);
              && 0 <= pos && pos + 2 <= |s|
              && Drain(s) == Drained([s[..pos + 2]] + Drain(s[pos + 2..]).events, Drain(s[pos + 2..]).rest)
  {
  }

  function Frames(events: seq<string>): seq<Option<string>> {
    seq(|events|, i requires 0 <= i < |events| => Frame(events[i]))
  }

  function Crlf(s: string): string {
    Replace(s, "\r\n", "\n")
  }

  predicate EndsCr(s: string) {
    s != [] && s[|s| - 1] == '\r'
  }

  /** A carriage return left by the previous chunk is decided by the new one. */
  function Reopen(buf: string, chunk: string): string {
    if !EndsCr(buf) then buf
    else if chunk != [] && chunk[0] == '\n' then buf[..|buf| - 1]
    else buf + "\n"
  }

  /** `push_chunk`: the events completed by a chunk, and the new buffer. */
  function Push(buf: string, chunk: string): Drained {
    Drain(Reopen(buf, chunk) + Crlf(chunk))
  }

  /** `flush_tail`: only a tail with a payload is a frame. */
  function FlushTail(buf: string): seq<Option<string>> {
    if EventData(buf) == "" then [] else [Some(EventData(buf))]
  }

  /** The raw events of a whole run, and the buffer at its end. */
  function Run(buf: string, chunks: seq<string>): Drained
    decreases |chunks|
  {
    if chunks == [] then Drained([], buf)
    else
      var d := Push(buf, chunks[0]);
      var r := Run(d.rest, chunks[1..]);
      Drained(d.events + r.events, r.rest)
  }

  class EventBuffer {
    var buf: string

    constructor ()
      ensures buf == ""
    {
      buf := "";
    }

    method DrainEvents() returns (events: seq<string>)
      modifies this
      ensures Drained(events, buf) == Drain(old(buf))
    {
      hide Find, Drain;
      events := [];
      while Find(buf, BLANK) != -1
        invariant Drain(old(buf)) == Drained(events + Drain(buf).events, Drain(buf).rest)
        decreases |buf|
      {
        DrainNext(buf);
        var pos := Find(buf, BLANK);
        Assoc(events, [buf[..pos + 2]], Drain(buf[pos + 2..]).events);
        events, buf := events + [buf[..pos + 2]], buf[pos + 2..];
      }
      DrainNext(buf);
      assert events + [] == events;
    }

    method PushChunk(chunk: string) returns (frames: seq<Option<string>>)
      modifies this
      ensures frames == Frames(Push(old(buf), chunk).events) && buf == Push(old(buf), chunk).rest
    {
      hide Drain, Crlf;
      if EndsCr(buf) {
        if chunk != [] && chunk[0] == '\n' {
          buf := buf[..|buf| - 1];
        } else {
          buf := buf + "\n";
        }
      }
      buf := buf + Crlf(chunk);
      var events := DrainEvents();
      frames := ReadFrames(events);
    }
  }

  method ReadFrames(events: seq<string>) returns (frames: seq<Option<string>>)
    ensures frames == Frames(events)
  {
    hide EventData;
    frames := [];
    for i := 0 to |events|
      invariant |frames| == i && forall k :: 0 <= k < i ==> frames[k] == Frame(events[k])
    {
      var data := ReadEventData(events[i]);
      frames := frames + [if data == "" then None else Some(data)];
    }
  }
}
