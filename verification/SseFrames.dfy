/** What a consumer sees of the events a server writes: a data frame for each event with a payload,
    a heartbeat for each without one, and the payload of an unfinished event at the end. */
module SseFrames {
  import opened Options
  import opened Text
  import opened Lines
  import opened Sse
  import opened SseChunks

  /** The payload lines of an event, joined, without white space around them. */
  function DataOf(fields: seq<Field>): string {
    Trim(Join(PayloadsOf(fields)))
  }

  /** A field is one line, and not a blank one. */
  predicate LineField(f: Field) {
    GoodField(f) && RenderField(f) != ""
  }

  predicate LineFields(fields: seq<Field>) {
    forall f :: f in fields ==> LineField(f)
  }

  function RenderEvent(fields: seq<Field>): string {
    RenderFields(fields) + "\n"
  }

  function RenderEvents(events: seq<seq<Field>>): seq<string> {
    seq(|events|, i requires 0 <= i < |events| => RenderEvent(events[i]))
  }

  /** An unfinished event: some lines, and the last one perhaps without its line feed. */
  function RenderTail(lines: seq<Field>, last: Option<Field>): string {
    RenderFields(lines) + if last.Some? then RenderField(last.value) else ""
  }

  function TailFields(lines: seq<Field>, last: Option<Field>): seq<Field> {
    lines + if last.Some? then [last.value] else []
  }

  // ---------- where the blank line stands ----------

  lemma {:induction false} LineShape(f: Field)
    requires LineField(f)
    ensures '\n' !in RenderField(f) && RenderField(f) != ""
  {
    FieldPayload(f);
  }

  lemma {:induction false} BlankNeedsTwo(s: string, j: int)
    ensures At(s, BLANK, j) ==> 0 <= j && j + 1 < |s| && s[j] == '\n' && s[j + 1] == '\n'
  {
    AtChar(s, BLANK, j, 0);
    AtChar(s, BLANK, j, 1);
  }

  /** A line and its line feed hide no blank line in front of what follows. */
  lemma {:induction false} NoBlankInLine(line: string, rest: string)
    requires line != "" && '\n' !in line && (rest == "" || rest[0] != '\n')
    ensures Find(line + "\n" + rest, BLANK) == if Find(rest, BLANK) == -1 then -1 else |line| + 1 + Find(rest, BLANK)
  {
    var a := line + "\n";
    forall i | 0 <= i < |a|
      ensures !At(a + rest, BLANK, i)
    {
      BlankNeedsTwo(a + rest, i);
      assert i < |line| ==> (a + rest)[i] == line[i];
    }
    FindSkip(a, rest, BLANK);
  }

  lemma {:induction false} FieldsStart(fields: seq<Field>, z: string)
    requires LineFields(fields) && (fields == [] ==> z == "" || z[0] != '\n')
    ensures RenderFields(fields) + z == "" || (RenderFields(fields) + z)[0] != '\n'
  {
    if fields != [] {
      LineShape(fields[0]);
      var line := RenderField(fields[0]);
      assert line[0] in line;
      assert (RenderFields(fields) + z)[0] == line[0];
    }
  }

  /** Without a blank line at the end there is none. */
  lemma {:induction false} FieldsHaveNoBlank(fields: seq<Field>, z: string)
    requires LineFields(fields) && '\n' !in z
    ensures Find(RenderFields(fields) + z, BLANK) == -1
    decreases |fields|
  {
    hide LineField, RenderField;
    if fields == [] {
      BlankNeedsTwo("" + z, Find("" + z, BLANK));
    } else {
      assert fields[0] in fields && forall f :: f in fields[1..] ==> f in fields;
      LineShape(fields[0]);
      var line, rest := RenderField(fields[0]), RenderFields(fields[1..]) + z;
      FieldsHaveNoBlank(fields[1..], z);
      FieldsStart(fields[1..], z);
      assert RenderFields(fields) + z == line + "\n" + rest;
      NoBlankInLine(line, rest);
    }
  }

  lemma {:induction false} EventEndsBlank(fields: seq<Field>)
    requires LineFields(fields) && fields != []
    ensures IsEvent(RenderEvent(fields))
    decreases |fields|
  {
    hide LineField, RenderField;
    assert fields[0] in fields && forall f :: f in fields[1..] ==> f in fields;
    LineShape(fields[0]);
    var line, rest := RenderField(fields[0]), RenderEvent(fields[1..]);
    assert RenderEvent(fields) == line + "\n" + rest;
    if fields[1..] == [] {
      LastLine(line);
      assert rest == "\n";
    } else {
      EventEndsBlank(fields[1..]);
      FieldsStart(fields[1..], "\n");
      NoBlankInLine(line, rest);
    }
  }

  lemma {:induction false} LastLine(line: string)
    requires line != "" && '\n' !in line
    ensures Find(line + "\n" + "\n", BLANK) == |line|
  {
    var s := line + "\n" + "\n";
    assert s[|line|..|line| + 2] == BLANK;
    forall j | 0 <= j < |line|
      ensures !At(s, BLANK, j)
    {
      BlankNeedsTwo(s, j);
      assert s[j] == line[j];
    }
    FindIs(s, BLANK, |line|);
  }

  // ---------- the data of events and tails ----------

  lemma {:induction false} PayloadsAppend(a: seq<Field>, b: seq<Field>)
    ensures PayloadsOf(a + b) == PayloadsOf(a) + PayloadsOf(b)
  {
    if a == [] {
      assert a + b == b;
    } else {
      assert (a + b)[1..] == a[1..] + b;
      PayloadsAppend(a[1..], b);
    }
  }

  /** The lines in front of `z` contribute their payloads, and `z` its own. */
  lemma {:induction false} FieldsThen(fields: seq<Field>, z: string)
    requires LineFields(fields)
    ensures Payloads(LinesOf(RenderFields(fields) + z)) == PayloadsOf(fields) + Payloads(LinesOf(z))
    decreases |fields|
  {
    hide *;
    if fields == [] {
      NoFields(fields, z);
    } else {
      FirstField(fields, z);
      var line, rest := RenderField(fields[0]), RenderFields(fields[1..]) + z;
      FieldsThen(fields[1..], z);
      LinesFirst(line, rest);
      PayloadsFirst(StripCr(line), LinesOf(rest));
      Assoc(Payload(StripCr(line)), PayloadsOf(fields[1..]), Payloads(LinesOf(z)));
    }
  }

  lemma {:induction false} NoFields(fields: seq<Field>, z: string)
    requires fields == []
    ensures RenderFields(fields) + z == z && PayloadsOf(fields) + Payloads(LinesOf(z)) == Payloads(LinesOf(z))
  {
    hide LinesOf;
  }

  lemma {:induction false} FirstField(fields: seq<Field>, z: string)
    requires fields != [] && LineFields(fields)
    ensures var line := RenderField(fields[0]);
            && RenderFields(fields) + z == line + "\n" + (RenderFields(fields[1..]) + z)
            && LineFields(fields[1..]) && '\n' !in line
            && PayloadsOf(fields) == Payload(StripCr(line)) + PayloadsOf(fields[1..])
  {
    assert fields[0] in fields && forall f :: f in fields[1..] ==> f in fields;
    FieldPayload(fields[0]);
    hide GoodField, RenderField, Payload;
  }

  lemma {:induction false} PayloadsFirst(line: string, lines: seq<string>)
    ensures Payloads([line] + lines) == Payload(line) + Payloads(lines)
  {
    hide Payload;
    assert ([line] + lines)[1..] == lines;
  }

  lemma {:induction false} EventDataIs(fields: seq<Field>)
    requires LineFields(fields)
    ensures EventData(RenderEvent(fields)) == DataOf(fields)
  {
    hide LineField;
    assert forall i :: 0 <= i < |fields| ==> fields[i] in fields;
    hide Trim, Join, RenderFields, LinesOf;
    AllGood(fields);
    FieldsPayloads(fields);
  }

  lemma {:induction false} AllGood(fields: seq<Field>)
    requires LineFields(fields)
    ensures forall i :: 0 <= i < |fields| ==> GoodField(fields[i])
  {
    hide GoodField, RenderField;
    assert forall i :: 0 <= i < |fields| ==> fields[i] in fields;
  }

  /** A last line without its line feed counts like one with it. */
  lemma {:induction false} LastPayload(f: Field)
    requires LineField(f)
    ensures Payloads(LinesOf(RenderField(f))) == PayloadsOf([f])
  {
    LineShape(f);
    var line := RenderField(f);
    NotIn(line, "\n");
    assert LinesOf(line) == [line] && Payloads([line][1..]) == [];
    assert PayloadsOf([f][1..]) == [];
    match f
    case Data(gap, payload) =>
      hide Trim, IsWhite;
      Assoc(DATA, gap, payload);
      assert line[|DATA|..] == gap + payload;
      TrimLead(gap, payload);
    case Other(l) =>
  }

  lemma {:induction false} TailDataIs(lines: seq<Field>, last: Option<Field>)
    requires LineFields(TailFields(lines, last))
    ensures EventData(RenderTail(lines, last)) == DataOf(TailFields(lines, last))
    ensures Find(RenderTail(lines, last), BLANK) == -1
  {
    hide Trim, Join, RenderFields, LinesOf, Payloads, LineField, RenderField;
    var z := if last.Some? then RenderField(last.value) else "";
    assert forall f :: f in lines ==> f in TailFields(lines, last);
    FieldsThen(lines, z);
    if last.Some? {
      assert last.value in TailFields(lines, last);
      LineShape(last.value);
      LastPayload(last.value);
      PayloadsAppend(lines, [last.value]);
    } else {
      NoLines();
      assert TailFields(lines, last) == lines;
      assert PayloadsOf(lines) + [] == PayloadsOf(lines);
    }
    FieldsHaveNoBlank(lines, z);
  }

  lemma {:induction false} NoLines()
    ensures Payloads(LinesOf("")) == []
  {
  }

  // ---------- what is seen ----------

  predicate WellRendered(events: seq<seq<Field>>, lines: seq<Field>, last: Option<Field>) {
    && (forall i :: 0 <= i < |events| ==> events[i] != [] && LineFields(events[i]))
    && LineFields(TailFields(lines, last))
  }

  lemma {:induction false} DrainRendered(events: seq<seq<Field>>, lines: seq<Field>, last: Option<Field>)
    requires WellRendered(events, lines, last)
    ensures Drain(Concat(RenderEvents(events)) + RenderTail(lines, last))
         == Drained(RenderEvents(events), RenderTail(lines, last))
  {
    hide LineFields, RenderEvent, RenderTail, IsEvent, Drain;
    forall i | 0 <= i < |events|
      ensures IsEvent(RenderEvents(events)[i])
    {
      EventEndsBlank(events[i]);
    }
    TailDataIs(lines, last);
    DrainOfCut(RenderEvents(events), RenderTail(lines, last));
  }

  /** The frames of complete events, and the flush of a tail, by what the server wrote. */
  lemma {:induction false} FramesOfRendered(events: seq<seq<Field>>, lines: seq<Field>, last: Option<Field>)
    requires WellRendered(events, lines, last)
    ensures var frames := Frames(RenderEvents(events));
            && |frames| == |events|
            && forall i :: 0 <= i < |events| ==> frames[i] == if DataOf(events[i]) != "" then Some(DataOf(events[i])) else None
    ensures var p := DataOf(TailFields(lines, last));
            FlushTail(RenderTail(lines, last)) == if p != "" then [Some(p)] else []
  {
    hide LineFields, RenderEvent, RenderTail, EventData, DataOf;
    forall i | 0 <= i < |events|
      ensures EventData(RenderEvents(events)[i]) == DataOf(events[i])
    {
      EventDataIs(events[i]);
    }
    TailDataIs(lines, last);
  }

  /** One chunk into an empty buffer: the frames of its events, and its tail is kept. */
  lemma {:induction false} PushShowsEvents(chunk: string, events: seq<seq<Field>>, lines: seq<Field>, last: Option<Field>)
    requires WellRendered(events, lines, last)
    requires Crlf(chunk) == Concat(RenderEvents(events)) + RenderTail(lines, last)
    ensures var d := Push("", chunk);
            && d.rest == RenderTail(lines, last)
            && |Frames(d.events)| == |events|
            && forall i :: 0 <= i < |events| ==>
                 Frames(d.events)[i] == if DataOf(events[i]) != "" then Some(DataOf(events[i])) else None
  {
    hide Drain, Crlf, Frames, DataOf, RenderEvents, RenderTail, WellRendered;
    DrainRendered(events, lines, last);
    FramesOfRendered(events, lines, last);
    assert Reopen("", chunk) + Crlf(chunk) == Crlf(chunk);
  }

  /** A whole stream, however it is cut: event by event a data frame with exactly the payload, or a
      heartbeat if there is none, and at the end the payload of an unfinished event, if it has one. */
  lemma {:induction false} StreamShowsEvents(chunks: seq<string>, events: seq<seq<Field>>, lines: seq<Field>,
                                             last: Option<Field>)
    requires WellRendered(events, lines, last)
    requires NonEmpty(chunks) && CrLfOnly(Concat(chunks))
    requires Crlf(Concat(chunks)) == Concat(RenderEvents(events)) + RenderTail(lines, last)
    ensures var seen, p := Observed(chunks), DataOf(TailFields(lines, last));
            && |seen| == |events| + (if p != "" then 1 else 0)
            && (forall i :: 0 <= i < |events| ==>
                  seen[i] == if DataOf(events[i]) != "" then Some(DataOf(events[i])) else None)
            && (p != "" ==> seen[|events|] == Some(p))
  {
    hide *;
    SameFrames(chunks);
    DrainRendered(events, lines, last);
    FramesOfRendered(events, lines, last);
    ObservedIs(chunks);
  }

  lemma {:induction false} ObservedIs(chunks: seq<string>)
    ensures Observed(chunks) == Frames(Run("", chunks).events) + FlushTail(Run("", chunks).rest)
  {
    hide Frames, FlushTail, Run;
  }

  /** Payload lines that need no trimming are the data as they stand. */
  lemma {:induction false} DataIsPayloads(fields: seq<Field>)
    requires Trimmed(Join(PayloadsOf(fields)))
    ensures DataOf(fields) == Join(PayloadsOf(fields))
  {
    TrimTrimmed(Join(PayloadsOf(fields)));
  }
}
