/** Framing does not depend on how the byte stream is cut, exactly when no carriage
    return stands alone. */
module SseChunks {
  import opened Options
  import opened Text
  import opened Lines
  import opened Sse

  predicate NonEmpty(chunks: seq<string>) {
    forall i :: 0 <= i < |chunks| ==> chunks[i] != []
  }

  /** Every carriage return that something follows is followed by a line feed. */
  predicate CrLfOnly(w: string) {
    forall i :: 0 <= i < |w| - 1 && w[i] == '\r' ==> w[i + 1] == '\n'
  }

  // ---------- line endings ----------

  lemma {:induction false} CrlfStep(s: string)
    ensures s == [] ==> Crlf(s) == []
    ensures s != [] && "\r\n" <= s ==> Crlf(s) == "\n" + Crlf(s[2..])
    ensures s != [] && !("\r\n" <= s) ==> Crlf(s) == [s[0]] + Crlf(s[1..])
  {
    if |s| == 1 {
      assert s == [s[0]] + s[1..];
    }
  }

  lemma {:induction false} CrlfSplit(a: string, b: string)
    requires !(EndsCr(a) && b != [] && b[0] == '\n')
    ensures Crlf(a + b) == Crlf(a) + Crlf(b)
    decreases |a|
  {
    CrlfStep(a);
    CrlfStep(a + b);
    if a == [] {
      assert a + b == b;
    } else if "\r\n" <= a {
      assert (a + b)[2..] == a[2..] + b;
      hide *;
      CrlfSplit(a[2..], b);
      Assoc("\n", Crlf(a[2..]), Crlf(b));
    } else {
      assert (a + b)[1..] == a[1..] + b && !("\r\n" <= a + b);
      hide Crlf;
      CrlfSplit(a[1..], b);
      Assoc([a[0]], Crlf(a[1..]), Crlf(b));
    }
  }

  lemma {:induction false} CrlfEnds(s: string)
    ensures EndsCr(Crlf(s)) <==> EndsCr(s)
    ensures Crlf(s) == [] <==> s == []
    decreases |s|
  {
    CrlfStep(s);
    if s != [] {
      if "\r\n" <= s {
        CrlfEnds(s[2..]);
      } else {
        CrlfEnds(s[1..]);
      }
    }
  }

  // ---------- draining ----------

  /** The events already taken off are prefix-stable. */
  lemma {:induction false} DrainResume(a: string, b: string)
    ensures var d := Drain(a);
            Drain(a + b) == Drained(d.events + Drain(d.rest + b).events, Drain(d.rest + b).rest)
    decreases |a|
  {
    hide Drain, Find;
    DrainNext(a);
    var pos := Find(a, BLANK);
    if pos == -1 {
      assert [] + Drain(a + b).events == Drain(a + b).events;
    } else {
      FindStable(a, b, BLANK);
      DrainNext(a + b);
      assert (a + b)[..pos + 2] == a[..pos + 2] && (a + b)[pos + 2..] == a[pos + 2..] + b;
      DrainResume(a[pos + 2..], b);
      var d := Drain(a[pos + 2..]);
      Assoc([a[..pos + 2]], d.events, Drain(d.rest + b).events);
    }
  }

  lemma {:induction false} ConcatCons(e: string, events: seq<string>)
    ensures Concat([e] + events) == e + Concat(events)
  {
    assert ([e] + events)[1..] == events;
  }

  lemma {:induction false} Halves(s: string, i: nat)
    requires i <= |s|
    ensures s == s[..i] + s[i..]
  {
  }

  /** What is drained and what is left are the whole text. */
  lemma {:induction false} DrainKeepsText(s: string)
    ensures Concat(Drain(s).events) + Drain(s).rest == s
    decreases |s|
  {
    hide Drain, Find;
    DrainNext(s);
    var pos := Find(s, BLANK);
    if pos != -1 {
      DrainKeepsText(s[pos + 2..]);
      var d := Drain(s[pos + 2..]);
      ConcatCons(s[..pos + 2], d.events);
      Assoc(s[..pos + 2], Concat(d.events), d.rest);
      Halves(s, pos + 2);
    }
  }

  /** A raw event ends with its first blank line. */
  predicate IsEvent(e: string) {
    |e| >= 2 && Find(e, BLANK) == |e| - 2
  }

  lemma {:induction false} EventFirst(e: string, rest: string)
    requires IsEvent(e)
    ensures Drain(e + rest) == Drained([e] + Drain(rest).events, Drain(rest).rest)
  {
    hide Drain, Find;
    FindStable(e, rest, BLANK);
    DrainNext(e + rest);
    assert (e + rest)[..|e|] == e && (e + rest)[|e|..] == rest;
  }

  lemma {:induction false} DrainIsEvents(s: string)
    ensures forall i :: 0 <= i < |Drain(s).events| ==> IsEvent(Drain(s).events[i])
    decreases |s|
  {
    hide Drain, Find;
    DrainNext(s);
    var pos := Find(s, BLANK);
    if pos != -1 {
      DrainIsEvents(s[pos + 2..]);
      FirstEvent(s, pos);
    }
  }

  lemma {:induction false} FirstEvent(s: string, pos: nat)
    requires Find(s, BLANK) == pos && pos + 2 <= |s|
    ensures IsEvent(s[..pos + 2])
  {
    FindPrefix(s, BLANK, pos + 2);
  }

  lemma {:induction false} DrainOfCut(events: seq<string>, rest: string)
    requires forall i :: 0 <= i < |events| ==> IsEvent(events[i])
    requires Find(rest, BLANK) == -1
    ensures Drain(Concat(events) + rest) == Drained(events, rest)
    decreases |events|
  {
    hide Drain, Find;
    if events == [] {
      assert "" + rest == rest;
      DrainNext(rest);
    } else {
      DrainOfCut(events[1..], rest);
      Assoc(events[0], Concat(events[1..]), rest);
      EventFirst(events[0], Concat(events[1..]) + rest);
    }
  }

  /** Draining cuts text into events that end at their first blank line and a rest without one, and
      there is only one such cut. */
  lemma {:induction false} DrainUnique(s: string, events: seq<string>, rest: string)
    ensures Drain(s) == Drained(events, rest)
       <==> s == Concat(events) + rest && Find(rest, BLANK) == -1 && forall i :: 0 <= i < |events| ==> IsEvent(events[i])
  {
    hide IsEvent, Find;
    DrainKeepsText(s);
    DrainIsEvents(s);
    if Find(rest, BLANK) == -1 && forall i :: 0 <= i < |events| ==> IsEvent(events[i]) {
      DrainOfCut(events, rest);
    }
  }

  // ---------- chunk invariance ----------

  /** The buffer without an undecided carriage return, and that carriage return. */
  function Body(buf: string): string {
    if EndsCr(buf) then buf[..|buf| - 1] else buf
  }

  function Pending(buf: string): string {
    if EndsCr(buf) then "\r" else ""
  }

  /** The normalised text that a buffer and the remaining input stand for. */
  function Meaning(buf: string, input: string): string {
    Body(buf) + Crlf(Pending(buf) + input)
  }

  lemma {:induction false} ReopenedIsMeaning(buf: string, b: string)
    requires b != [] && CrLfOnly(Pending(buf) + b)
    ensures Reopen(buf, b) + Crlf(b) == Meaning(buf, b)
  {
    if EndsCr(buf) {
      var x := "\r" + b;
      assert x[0] == '\r' && x[1] == b[0] == '\n';
      CrlfStep(x);
      CrlfStep(b);
      assert x[2..] == b[1..];
    } else {
      assert "" + b == b;
    }
  }

  /** Text behind a chunk does not change how the chunk is normalised, except that it
      decides a carriage return at the chunk's end. */
  lemma {:induction false} CrlfGrow(x: string, v: string)
    ensures Crlf(x + v) == Body(Crlf(x)) + Crlf(Pending(Crlf(x)) + v)
  {
    CrlfEnds(x);
    if EndsCr(x) {
      var y := x[..|x| - 1];
      assert x == y + "\r" && x + v == y + ("\r" + v);
      CrlfSplit(y, "\r");
      CrlfSplit(y, "\r" + v);
      CrlfStep("\r");
      assert Crlf(x) == Crlf(y) + "\r";
    } else {
      CrlfSplit(x, v);
      assert "" + v == v;
    }
  }

  lemma {:induction false} MeaningGrow(buf: string, b: string, v: string)
    requires b != []
    ensures Meaning(buf, b + v) == Meaning(Meaning(buf, b), v)
    ensures Pending(Meaning(buf, b)) == Pending(b)
  {
    var x := Pending(buf) + b;
    Assoc(Pending(buf), b, v);
    CrlfGrow(x, v);
    CrlfEnds(x);
    BodyAppend(Body(buf), Crlf(x));
    Assoc(Body(buf), Body(Crlf(x)), Crlf(Pending(Crlf(x)) + v));
  }

  lemma {:induction false} BodyAppend(a: string, b: string)
    requires b != []
    ensures Body(a + b) == a + Body(b) && Pending(a + b) == Pending(b)
  {
  }

  /** Draining commutes with waiting for more input. */
  lemma {:induction false} DrainThenMore(a: string, v: string)
    ensures var d := Drain(a);
            Drain(Meaning(a, v)) == Drained(d.events + Drain(Meaning(d.rest, v)).events, Drain(Meaning(d.rest, v)).rest)
  {
    hide Drain, Crlf;
    var d := Drain(a);
    if EndsCr(a) {
      var y := a[..|a| - 1];
      assert a == y + "\r";
      LastIsNoNewline(y);
      DrainResume(y, Crlf("\r" + v));
    } else {
      assert "" + v == v;
      RestEnds(a);
      DrainResume(a, Crlf(v));
    }
  }

  lemma {:induction false} RestEnds(a: string)
    requires !EndsCr(a)
    ensures !EndsCr(Drain(a).rest)
  {
  }

  lemma {:induction false} LastIsNoNewline(y: string)
    ensures Drain(y + "\r") == Drained(Drain(y).events, Drain(y).rest + "\r")
  {
    hide Drain, Find;
    DrainResume(y, "\r");
    NoBlankAtCr(Drain(y).rest);
    DrainNext(Drain(y).rest + "\r");
    assert Drain(y).events + [] == Drain(y).events;
  }

  lemma {:induction false} NoBlankAtCr(rest: string)
    requires Find(rest, BLANK) == -1
    ensures Find(rest + "\r", BLANK) == -1
  {
    var r := Find(rest + "\r", BLANK);
    AtChar(rest + "\r", BLANK, r, 1);
    if r != -1 {
      AtLeft(rest, "\r", BLANK, r);
    }
  }

  /** Any cutting into nonempty chunks gives the events of the whole normalised input. */
  lemma {:induction false} ChunkInvariance(buf: string, chunks: seq<string>)
    requires NonEmpty(chunks) && CrLfOnly(Pending(buf) + Concat(chunks)) && Drain(buf) == Drained([], buf)
    ensures Run(buf, chunks) == Drain(Meaning(buf, Concat(chunks)))
    decreases |chunks|
  {
    if chunks == [] {
      NothingMore(buf);
    } else {
      ConcatChunksFirst(chunks);
      hide *;
      var b, v := chunks[0], Concat(chunks[1..]);
      PushIsMeaning(buf, b, v);
      var d := Push(buf, b);
      ChunkInvariance(d.rest, chunks[1..]);
      RunFirst(buf, chunks);
    }
  }

  lemma {:induction false} NothingMore(buf: string)
    ensures Meaning(buf, Concat([])) == buf
  {
    CrlfStep("");
    CrlfStep("\r");
    assert Pending(buf) + "" == Pending(buf) && Body(buf) + Pending(buf) == buf;
  }

  lemma {:induction false} ConcatChunksFirst(chunks: seq<string>)
    requires chunks != [] && NonEmpty(chunks)
    ensures Concat(chunks) == chunks[0] + Concat(chunks[1..])
    ensures chunks[0] != [] && NonEmpty(chunks[1..])
  {
  }

  lemma {:induction false} RunFirst(buf: string, chunks: seq<string>)
    requires chunks != []
    ensures var d := Push(buf, chunks[0]);
            Run(buf, chunks) == Drained(d.events + Run(d.rest, chunks[1..]).events, Run(d.rest, chunks[1..]).rest)
  {
    hide Push;
  }

  /** One push outputs exactly the events that the remaining input no longer holds. */
  lemma {:induction false} PushIsMeaning(buf: string, b: string, v: string)
    requires b != [] && CrLfOnly(Pending(buf) + (b + v))
    ensures var d := Push(buf, b);
            && Drain(d.rest) == Drained([], d.rest)
            && CrLfOnly(Pending(d.rest) + v)
            && Drain(Meaning(buf, b + v))
            == Drained(d.events + Drain(Meaning(d.rest, v)).events, Drain(Meaning(d.rest, v)).rest)
  {
    CrLfParts(buf, b, v);
    hide Drain, Crlf, Meaning, CrLfOnly, Pending;
    ReopenedIsMeaning(buf, b);
    MeaningGrow(buf, b, v);
    var a := Meaning(buf, b);
    DrainThenMore(a, v);
    PendingRest(a);
    DrainNext(Drain(a).rest);
  }

  lemma {:induction false} CrLfParts(buf: string, b: string, v: string)
    requires b != [] && CrLfOnly(Pending(buf) + (b + v))
    ensures CrLfOnly(Pending(buf) + b) && CrLfOnly(Pending(b) + v)
  {
    hide CrLfOnly;
    Assoc(Pending(buf), b, v);
    CrLfPrefix(Pending(buf) + b, v);
    assert b == Body(b) + Pending(b);
    assert Pending(buf) + (b + v) == (Pending(buf) + Body(b)) + (Pending(b) + v);
    CrLfSuffix(Pending(buf) + Body(b), Pending(b) + v);
  }

  lemma {:induction false} PendingRest(a: string)
    ensures Pending(Drain(a).rest) == Pending(a)
  {
    if EndsCr(a) {
      assert a == a[..|a| - 1] + "\r";
      LastIsNoNewline(a[..|a| - 1]);
    }
  }

  lemma {:induction false} CrLfPrefix(x: string, v: string)
    requires CrLfOnly(x + v)
    ensures CrLfOnly(x)
  {
    forall i | 0 <= i < |x| - 1 && x[i] == '\r'
      ensures x[i + 1] == '\n'
    {
      assert (x + v)[i] == x[i] && (x + v)[i + 1] == x[i + 1];
    }
  }

  lemma {:induction false} CrLfSuffix(x: string, v: string)
    requires CrLfOnly(x + v)
    ensures CrLfOnly(v)
  {
    forall i | 0 <= i < |v| - 1 && v[i] == '\r'
      ensures v[i + 1] == '\n'
    {
      assert (x + v)[|x| + i] == v[i] && (x + v)[|x| + i + 1] == v[i + 1];
    }
  }

  // ---------- the condition is exact ----------

  /** The raw text of a run: its events and its buffer. */
  function RunText(chunks: seq<string>): string {
    Concat(Run("", chunks).events) + Run("", chunks).rest
  }

  lemma {:induction false} WholeText(chunks: seq<string>)
    requires NonEmpty(chunks) && CrLfOnly(Concat(chunks))
    ensures RunText(chunks) == Crlf(Concat(chunks))
  {
    hide Drain, Crlf;
    assert Pending("") + Concat(chunks) == Concat(chunks);
    DrainOfNothing();
    ChunkInvariance("", chunks);
    assert Meaning("", Concat(chunks)) == Crlf(Concat(chunks));
    DrainKeepsText(Crlf(Concat(chunks)));
  }

  lemma {:induction false} DrainOfNothing()
    ensures Drain("") == Drained([], "")
  {
  }

  predicate CutOf(chunks: seq<string>, w: string) {
    NonEmpty(chunks) && Concat(chunks) == w
  }

  /** All cuttings of an input into nonempty chunks yield the same raw text exactly when
      no carriage return stands alone: a lone one gains a line feed if cut behind. */
  lemma {:induction false} InvariantIffCrLfOnly(w: string)
    ensures CrLfOnly(w) <==> forall chunks :: CutOf(chunks, w) ==> RunText(chunks) == Crlf(w)
  {
    hide RunText, Crlf;
    if CrLfOnly(w) {
      forall chunks | CutOf(chunks, w)
        ensures RunText(chunks) == Crlf(w)
      {
        WholeText(chunks);
      }
    } else {
      var chunks := LoneCrCut(w);
      assert CutOf(chunks, w) && RunText(chunks) != Crlf(w);
    }
  }

  /** A cutting that shows the difference. */
  lemma {:induction false} LoneCrCut(w: string) returns (chunks: seq<string>)
    requires !CrLfOnly(w)
    ensures CutOf(chunks, w) && RunText(chunks) != Crlf(w)
  {
    var i :| 0 <= i < |w| - 1 && w[i] == '\r' && w[i + 1] != '\n';
    var a, b := w[..i + 1], w[i + 1..];
    assert w == a + b;
    TwoChunks(a, b);
    LoneCrText(a, b);
    chunks := [a, b];
  }

  lemma {:induction false} TwoChunks(a: string, b: string)
    requires a != [] && b != []
    ensures NonEmpty([a, b]) && Concat([a, b]) == a + b
  {
    assert [a, b][1..] == [b] && [b][1..] == [];
    assert Concat([b]) == b + Concat([]) == b;
    assert Concat([a, b]) == a + Concat([b]);
  }

  lemma {:induction false} LoneCrText(a: string, b: string)
    requires EndsCr(a) && b != [] && b[0] != '\n'
    ensures RunText([a, b]) != Crlf(a + b)
  {
    CrlfSplit(a, b);
    CrlfEnds(a);
    hide Drain, Crlf;
    var d := Drain(Crlf(a));
    assert Reopen("", a) + Crlf(a) == Crlf(a);
    PendingRest(Crlf(a));
    assert EndsCr(d.rest);
    var e := Drain(d.rest + "\n" + Crlf(b));
    assert [a, b][1..] == [b] && [b][1..] == [];
    RunTwo(a, b, d, e);
    DrainKeepsText(Crlf(a));
    DrainKeepsText(d.rest + "\n" + Crlf(b));
    ConcatAppend(d.events, e.events);
    assert |RunText([a, b])| == |Crlf(a)| + 1 + |Crlf(b)|;
  }

  lemma {:induction false} RunTwo(a: string, b: string, d: Drained, e: Drained)
    requires d == Push("", a) && e == Push(d.rest, b)
    ensures Run("", [a, b]) == Drained(d.events + e.events, e.rest)
  {
    hide Push;
    RunFirst("", [a, b]);
    RunFirst(d.rest, [b]);
    assert [a, b][1..] == [b] && [b][1..] == [];
    assert e.events + [] == e.events;
  }

  lemma {:induction false} ConcatAppend(a: seq<string>, b: seq<string>)
    ensures Concat(a + b) == Concat(a) + Concat(b)
  {
    if a == [] {
      assert a + b == b;
    } else {
      assert (a + b)[1..] == a[1..] + b;
      ConcatAppend(a[1..], b);
    }
  }

  /** What a consumer sees: the frames of the run, then the tail flush. */
  function Observed(chunks: seq<string>): seq<Option<string>> {
    Frames(Run("", chunks).events) + FlushTail(Run("", chunks).rest)
  }

  /** Frames and tail flush of any cutting are those of the whole input in one chunk. */
  lemma {:induction false} SameFrames(chunks: seq<string>)
    requires NonEmpty(chunks) && CrLfOnly(Concat(chunks))
    ensures Run("", chunks) == Drain(Crlf(Concat(chunks)))
    ensures Concat(chunks) != "" ==> Observed(chunks) == Observed([Concat(chunks)])
  {
    hide Drain, Crlf, Frames, FlushTail;
    DrainOfNothing();
    var w := Concat(chunks);
    assert Pending("") + w == w && Meaning("", w) == Crlf(w);
    ChunkInvariance("", chunks);
    if w != "" {
      assert [w][1..] == [] && w + "" == w;
      assert Concat([w]) == w;
      ChunkInvariance("", [w]);
    }
  }

  // ---------- the frame of a server's event ----------

  /** A line of an event: a payload, or a comment or other field. */
  datatype Field = Data(gap: string, payload: string) | Other(line: string)

  function RenderField(f: Field): string {
    match f
    case Data(gap, payload) => DATA + gap + payload
    case Other(line) => line
  }

  function RenderFields(fields: seq<Field>): string {
    if fields == [] then "" else RenderField(fields[0]) + "\n" + RenderFields(fields[1..])
  }

  function PayloadsOf(fields: seq<Field>): seq<string> {
    if fields == [] then []
    else (if fields[0].Data? then [fields[0].payload] else []) + PayloadsOf(fields[1..])
  }

  predicate GoodField(f: Field) {
    match f
    case Data(gap, payload) =>
      Trimmed(payload) && '\n' !in payload && '\n' !in gap && (forall c :: c in gap ==> IsWhite(c)) && !EndsCr(gap + payload)
    case Other(line) => !(DATA <= line) && '\n' !in line
  }

  /** The data of an event is its payload lines, whatever other fields it carries. */
  lemma {:induction false} EventRoundTrip(fields: seq<Field>)
    requires forall i :: 0 <= i < |fields| ==> GoodField(fields[i])
    requires Trimmed(Join(PayloadsOf(fields)))
    ensures EventData(RenderFields(fields) + "\n") == Join(PayloadsOf(fields))
  {
    FieldsPayloads(fields);
    TrimTrimmed(Join(PayloadsOf(fields)));
  }

  lemma {:induction false} FieldsPayloads(fields: seq<Field>)
    requires forall i :: 0 <= i < |fields| ==> GoodField(fields[i])
    ensures Payloads(LinesOf(RenderFields(fields) + "\n")) == PayloadsOf(fields)
  {
    if fields == [] {
      assert "" + "\n" + "" == "\n";
      LinesFirst("", "");
    } else {
      FieldsPayloads(fields[1..]);
      hide LinesOf, GoodField;
      var line, rest := RenderField(fields[0]), RenderFields(fields[1..]) + "\n";
      assert RenderFields(fields) + "\n" == line + "\n" + rest;
      FieldPayload(fields[0]);
      LinesFirst(line, rest);
    }
  }

  lemma {:induction false} FieldPayload(f: Field)
    requires GoodField(f)
    ensures '\n' !in RenderField(f)
    ensures Payload(StripCr(RenderField(f))) == if f.Data? then [f.payload] else []
  {
    match f
    case Data(gap, payload) =>
      hide Trim, IsWhite;
      var line := DATA + (gap + payload);
      Assoc(DATA, gap, payload);
      assert StripCr(line) == line && '\n' !in DATA;
      assert DATA <= line && line[|DATA|..] == gap + payload;
      TrimLead(gap, payload);
    case Other(line) =>
  }
}
