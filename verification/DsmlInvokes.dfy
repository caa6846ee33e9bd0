/** What a well-formed tool-call block means: one call per invoke, in order. */
module DsmlInvokes {
  import opened Options
  import opened Text
  import opened DsmlMarkers
  import opened Dsml
  import opened DsmlStreaming

  /** `gap` is the white space in front of an element. */
  datatype Param = Param(gap: string, name: string, value: string, literal: bool)
  datatype Invoke = Invoke(gap: string, name: string, params: seq<Param>, end: string)

  const QUOTE := "\""
  const NAME_IS := " name=\""
  const STRING_IS := " string=\""

  function Kind(p: Param): string {
    if p.literal then "true" else "false"
  }

  function ParamTag(p: Param): string {
    PARAM_OPEN + NAME_IS + p.name + QUOTE + (STRING_IS + Kind(p) + QUOTE + ">")
  }

  function RenderParams(ps: seq<Param>): string {
    if ps == [] then "" else ps[0].gap + RenderParam(ps[0], RenderParams(ps[1..]))
  }

  function RenderParam(p: Param, rest: string): string {
    ParamTag(p) + (p.value + PARAM_CLOSE + rest)
  }

  function InvokeBody(i: Invoke): string {
    NAME_IS + i.name + QUOTE + (">" + (RenderParams(i.params) + i.end))
  }

  function RenderInvoke(i: Invoke): string {
    INVOKE_OPEN + InvokeBody(i) + INVOKE_CLOSE
  }

  function RenderBlock(invokes: seq<Invoke>, end: string): string {
    if invokes == [] then end else invokes[0].gap + (RenderInvoke(invokes[0]) + RenderBlock(invokes[1..], end))
  }

  predicate Name(s: string) {
    Plain(s) && '\"' !in s && '>' !in s && '=' !in s
  }

  ghost predicate GoodParam(p: Param) {
    Plain(p.gap) && Name(p.name) && !Occurs(p.value, CLOSER)
  }

  ghost predicate GoodParams(ps: seq<Param>) {
    ps == [] || (GoodParam(ps[0]) && GoodParams(ps[1..]))
  }

  ghost predicate GoodInvoke(i: Invoke) {
    Plain(i.gap) && Name(i.name) && Plain(i.end) && GoodParams(i.params)
  }

  function ArgOf(p: Param): Arg {
    if p.literal then Literal(p.value) else Json(p.value)
  }

  function Args(ps: seq<Param>, args: map<string, Arg>): map<string, Arg> {
    if ps == [] then args else Args(ps[1..], args[ps[0].name := ArgOf(ps[0])])
  }

  function CallsOf(invokes: seq<Invoke>, counter: nat): seq<ToolCall> {
    if invokes == [] then []
    else
      [ToolCall(CallId(counter + 1), invokes[0].name, Args(invokes[0].params, map[]))] + CallsOf(invokes[1..], counter + 1)
  }

  // ---------- finding things ----------

  /** A pattern whose first letter does not occur in `a` is found right behind it. */
  lemma {:induction false} FindBehind(a: string, p: string, b: string)
    requires p != [] && p[0] !in a
    ensures Find(a + p + b, p) == |a|
    ensures (a + p + b)[|a| + |p|..] == b && (a + p + b)[..|a|] == a
  {
    var s := a + p + b;
    assert s[|a|..|a| + |p|] == p;
    forall j | 0 <= j < |a|
      ensures !At(s, p, j)
    {
      AtChar(s, p, j, 0);
      assert s[j] == a[j];
    }
    FindIs(s, p, |a|);
  }

  lemma {:induction false} QuotedValue(value: string, rest: string)
    requires '\"' !in value
    ensures var s := value + QUOTE + rest;
            Find(s, "\"") == |value| && s[..|value|] == value
  {
    FindBehind(value, QUOTE, rest);
  }

  /** The value of the attribute found at `|a|`. */
  lemma {:induction false} AttrAt(a: string, key: string, value: string, rest: string)
    requires '\"' !in value
    requires Find(a + (key + "=\"") + (value + QUOTE + rest), key + "=\"") == |a|
    ensures AttrValue(a + (key + "=\"") + (value + QUOTE + rest), key) == Some(value)
  {
    var pat := key + "=\"";
    var tail := value + QUOTE + rest;
    assert (a + pat + tail)[|a| + |pat|..] == tail;
    hide Find;
    QuotedValue(value, rest);
  }

  /** The first attribute of a tag or of an invoke. */
  lemma {:induction false} NameAttr(a: string, name: string, rest: string)
    requires 'n' !in a && '\"' !in name
    ensures AttrValue(a + NAME_IS + name + QUOTE + rest, "name") == Some(name)
  {
    var pat := "name" + "=\"";
    var tail := name + QUOTE + rest;
    assert NAME_IS == " " + pat;
    assert a + NAME_IS + name + QUOTE + rest == (a + " ") + pat + tail;
    FindBehind(a + " ", pat, tail);
    AttrAt(a + " ", "name", name, rest);
  }

  /** The second attribute: its key cannot start inside the first one. */
  lemma {:induction false} KindAttr(a: string, name: string, kind: string, rest: string)
    requires '=' !in a && '\"' !in a && Name(name) && '\"' !in kind
    ensures AttrValue(a + NAME_IS + name + QUOTE + (STRING_IS + kind + QUOTE + rest), "string") == Some(kind)
  {
    var pat := "string" + "=\"";
    var pre := a + NAME_IS + name + QUOTE + " ";
    var tail := kind + QUOTE + rest;
    assert STRING_IS == " " + pat && pat == "string=\"";
    assert a + NAME_IS + name + QUOTE + (STRING_IS + kind + QUOTE + rest) == pre + pat + tail;
    var s := pre + pat + tail;
    forall j | 0 <= j < |pre|
      ensures !At(s, pat, j)
    {
      KindNotBefore(a, name, pat + tail, j);
    }
    assert s[|pre|..|pre| + |pat|] == pat;
    FindIs(s, pat, |pre|);
    AttrAt(pre, "string", kind, rest);
  }

  lemma {:induction false} KindNotBefore(a: string, name: string, tail: string, j: nat)
    requires '=' !in a && '\"' !in a && Name(name)
    requires j < |a + NAME_IS + name + QUOTE + " "|
    ensures !At(a + NAME_IS + name + QUOTE + " " + tail, "string=\"", j)
  {
    var s := a + NAME_IS + name + QUOTE + " " + tail;
    var q := |a| + 7;
    forall k | 0 <= k < q + |name| + 2
      ensures k < |a| ==> s[k] == a[k]
      ensures |a| <= k < q ==> s[k] == NAME_IS[k - |a|]
      ensures q <= k < q + |name| ==> s[k] == name[k - q]
      ensures k == q + |name| ==> s[k] == '\"'
      ensures k == q + |name| + 1 ==> s[k] == ' '
    {
    }
    var pat := "string=\"";
    assert pat[5] == 'g' && pat[6] == '=' && forall d :: 0 <= d < 7 ==> pat[d] != '\"';
    assert NAME_IS[4] == 'e' && NAME_IS[6] == '\"' && forall d :: 0 <= d < 5 ==> NAME_IS[d] != '=';
    AtChar(s, pat, j, 0);
    AtChar(s, pat, j, 5);
    AtChar(s, pat, j, 6);
    // A match would have to reach the next quote exactly with its own quote.
    if j < q {
      if q - 1 - j <= 7 {
        AtChar(s, pat, j, q - 1 - j);
      }
    } else if j < q + |name| {
      if q + |name| - j <= 7 {
        AtChar(s, pat, j, q + |name| - j);
      }
    }
  }

  // ---------- parameters ----------

  /** Where the parameter scan finds the parts of a parameter. */
  lemma {:induction false} ParamParts(pre: string, t: string, body: string)
    requires Plain(pre) && '>' !in PARAM_OPEN + t
    ensures var tag := PARAM_OPEN + t + ">";
            Find(pre + (tag + body), PARAM_OPEN) == |pre| && Find(tag + body, ">") == |tag| - 1
  {
    hide Find;
    assert PARAM_OPEN[0] == '<';
    assert pre + (PARAM_OPEN + t + ">" + body) == pre + PARAM_OPEN + (t + ">" + body);
    FindBehind(pre, PARAM_OPEN, t + ">" + body);
    FindBehind(PARAM_OPEN + t, ">", body);
  }

  /** One turn of the parameter scan, on text cut at the right places. */
  lemma {:induction false} ParamsTurn(pre: string, tag: string, value: string, more: string, args: map<string, Arg>)
    requires var body := value + PARAM_CLOSE + more;
             && Find(pre + (tag + body), PARAM_OPEN) == |pre| && Find(tag + body, ">") == |tag| - 1 >= 0
             && Find(body, PARAM_CLOSE) == |value|
             && body[..|value|] == value && body[|value| + |PARAM_CLOSE|..] == more
    ensures Params(pre + (tag + (value + PARAM_CLOSE + more)), args) == Params(more, WithParam(args, tag, value))
  {
    hide Find, AttrValue, ParamArg, PARAM_OPEN, PARAM_CLOSE;
    var body := value + PARAM_CLOSE + more;
    TailFrom(pre, tag + body);
    SliceTo(pre, tag, body);
  }

  /** One rendered parameter is read back and the scan goes on behind it. */
  lemma {:induction false} ParamStep(pre: string, p: Param, more: string, args: map<string, Arg>)
    requires Plain(pre) && Name(p.name) && !Occurs(p.value, CLOSER)
    ensures Params(pre + (ParamTag(p) + (p.value + PARAM_CLOSE + more)), args) == Params(more, args[p.name := ArgOf(p)])
  {
    TagShape(p);
    TagArg(p, args);
    hide *;
    var t := NAME_IS + p.name + QUOTE + (STRING_IS + Kind(p) + QUOTE);
    var body := p.value + PARAM_CLOSE + more;
    ParamParts(pre, t, body);
    ValueEnds(p.value, more);
    ParamsTurn(pre, ParamTag(p), p.value, more, args);
  }

  /** What the attributes of a rendered tag say. */
  lemma {:induction false} TagArg(p: Param, args: map<string, Arg>)
    requires Name(p.name)
    ensures WithParam(args, ParamTag(p), p.value) == args[p.name := ArgOf(p)]
  {
    TagShape(p);
    hide Find, AttrValue, NAME_IS, STRING_IS, QUOTE, PARAM_OPEN;
    NameAttr(PARAM_OPEN, p.name, STRING_IS + Kind(p) + QUOTE + ">");
    KindAttr(PARAM_OPEN, p.name, Kind(p), ">");
  }

  lemma {:induction false} TagShape(p: Param)
    requires Name(p.name)
    ensures '=' !in PARAM_OPEN && '\"' !in PARAM_OPEN && 'n' !in PARAM_OPEN && '\"' !in Kind(p)
    ensures '>' !in PARAM_OPEN + (NAME_IS + p.name + QUOTE + (STRING_IS + Kind(p) + QUOTE))
    ensures ParamTag(p) == PARAM_OPEN + (NAME_IS + p.name + QUOTE + (STRING_IS + Kind(p) + QUOTE)) + ">"
  {
    assert '>' !in PARAM_OPEN && '>' !in NAME_IS && '>' !in QUOTE && '>' !in STRING_IS && '>' !in Kind(p);
  }

  /** A value ends at the first closing parameter tag. */
  lemma {:induction false} ValueEnds(value: string, more: string)
    requires !Occurs(value, CLOSER)
    ensures var body := value + PARAM_CLOSE + more;
            Find(body, PARAM_CLOSE) == |value| && body[..|value|] == value && body[|value| + |PARAM_CLOSE|..] == more
  {
    var body := value + PARAM_CLOSE + more;
    assert body == value + (PARAM_CLOSE + more);
    assert body[|value|..|value| + |PARAM_CLOSE|] == PARAM_CLOSE;
    forall j | 0 <= j < |value|
      ensures !At(body, PARAM_CLOSE, j)
    {
      NoCloserInValue(value, PARAM_CLOSE + more, j);
      CloserOf(body, PARAM_CLOSE, j);
    }
    FindIs(body, PARAM_CLOSE, |value|);
  }

  /** The closing tags: all start with the closing prefix. */
  predicate ClosingTag(p: string) {
    p == CLOSE || p == INVOKE_CLOSE || p == PARAM_CLOSE
  }

  lemma {:induction false} CloserOf(s: string, p: string, j: int)
    requires ClosingTag(p)
    ensures At(s, p, j) ==> At(s, CLOSER, j)
  {
    assert CLOSER <= CLOSE && CLOSER <= INVOKE_CLOSE && CLOSER <= PARAM_CLOSE;
    if At(s, p, j) {
      AtPrefixOf(s, p, CLOSER, j);
    }
  }

  lemma {:induction false} NoCloserInValue(value: string, rest: string, j: nat)
    requires !Occurs(value, CLOSER) && AtTag(rest) && j < |value|
    ensures !At(value + rest, CLOSER, j)
  {
    AliasesAreSegments();
    if At(value + rest, CLOSER, j) {
      NoStraddle(value, rest, CLOSER, j);
    }
  }

  /** Text behind the last parameter of an invoke. */
  ghost predicate EndsParams(fin: string) {
    forall t :: Plain(t) ==> Find(t + fin, PARAM_OPEN) == -1
  }

  /** Reading back rendered parameters. */
  lemma {:induction false} ParamsOf(pre: string, ps: seq<Param>, fin: string, args: map<string, Arg>)
    requires Plain(pre) && GoodParams(ps) && EndsParams(fin)
    ensures Params(pre + (RenderParams(ps) + fin), args) == Args(ps, args)
    decreases |ps|
  {
    if ps == [] {
      NoMoreParams(pre, fin, args);
    } else {
      hide *;
      var p, more := ps[0], RenderParams(ps[1..]) + fin;
      ParamsFirst(pre, ps, fin, args);
      ParamStep(pre + p.gap, p, more, args);
      ParamsOf([], ps[1..], fin, args[p.name := ArgOf(p)]);
    }
  }

  lemma {:induction false} NoMoreParams(pre: string, fin: string, args: map<string, Arg>)
    requires Plain(pre) && EndsParams(fin)
    ensures Params(pre + (RenderParams([]) + fin), args) == args
  {
    assert [] + fin == fin;
  }

  lemma {:induction false} ParamsFirst(pre: string, ps: seq<Param>, fin: string, args: map<string, Arg>)
    requires ps != [] && Plain(pre) && GoodParams(ps)
    ensures var p, more := ps[0], RenderParams(ps[1..]) + fin;
            && pre + (RenderParams(ps) + fin) == (pre + p.gap) + (ParamTag(p) + (p.value + PARAM_CLOSE + more))
            && Args(ps, args) == Args(ps[1..], args[p.name := ArgOf(p)])
            && Plain([]) && Plain(pre + p.gap) && Name(p.name) && !Occurs(p.value, CLOSER) && GoodParams(ps[1..])
            && [] + more == more
  {
    hide ParamTag, PARAM_CLOSE, Occurs, Name;
    var p, rest := ps[0], RenderParams(ps[1..]);
    assert RenderParams(ps) == p.gap + (ParamTag(p) + (p.value + PARAM_CLOSE + rest));
  }

  lemma {:induction false} NoParamBehind(end: string)
    requires Plain(end)
    ensures EndsParams(end + INVOKE_CLOSE)
  {
    TagsAreSegments();
    forall t | Plain(t)
      ensures Find(t + (end + INVOKE_CLOSE), PARAM_OPEN) == -1
    {
      var s := t + (end + INVOKE_CLOSE);
      var r := Find(s, PARAM_OPEN);
      assert Plain(t + end);
      assert s == (t + end) + INVOKE_CLOSE;
      AtChar(s, PARAM_OPEN, r, 0);
      AtChar(s, PARAM_OPEN, r, 1);
      assert s[|t + end| + 1] == INVOKE_CLOSE[1];
      LastTagIs(t + end, INVOKE_CLOSE);
    }
  }

  /** An invoke block is read back as its call. */
  lemma {:induction false} InvokeRoundTrip(i: Invoke, counter: nat)
    requires GoodInvoke(i)
    ensures ParseInvoke(RenderInvoke(i), counter)
         == Some(ToolCall(CallId(counter + 1), i.name, Args(i.params, map[])))
  {
    InvokeShape(i);
    var fin := i.end + INVOKE_CLOSE;
    var pre := NAME_IS + i.name + QUOTE + ">";
    var params := RenderParams(i.params);
    assert Plain(pre);
    hide NAME_IS, QUOTE, Find, Params, AttrValue, RenderParams, PARAM_OPEN;
    NameAttr([], i.name, ">" + (params + fin));
    assert [] + NAME_IS == NAME_IS;
    NoParamBehind(i.end);
    ParamsOf(pre, i.params, fin, map[]);
  }

  lemma {:induction false} InvokeShape(i: Invoke)
    ensures INVOKE_OPEN <= RenderInvoke(i)
    ensures var rest := RenderInvoke(i)[|INVOKE_OPEN|..];
            var tail := RenderParams(i.params) + (i.end + INVOKE_CLOSE);
            && rest == NAME_IS + i.name + QUOTE + (">" + tail)
            && rest == NAME_IS + i.name + QUOTE + ">" + tail
  {
    hide NAME_IS, QUOTE, INVOKE_OPEN, INVOKE_CLOSE, RenderParams;
    var body := InvokeBody(i) + INVOKE_CLOSE;
    assert RenderInvoke(i) == INVOKE_OPEN + body;
    TailFrom(INVOKE_OPEN, body);
  }

  // ---------- closing tags inside a block ----------

  /** No `p` starts inside `a` when `rest` follows. */
  predicate NoneIn(a: string, rest: string, p: string) {
    forall j :: 0 <= j < |a| ==> !At(a + rest, p, j)
  }

  predicate BlockEnd(p: string) {
    p == CLOSE || p == INVOKE_CLOSE
  }

  lemma {:induction false} NoneInJoin(a: string, b: string, rest: string, p: string)
    requires NoneIn(a, b + rest, p) && NoneIn(b, rest, p)
    ensures NoneIn(a + b, rest, p)
  {
    assert (a + b) + rest == a + (b + rest);
    forall j | 0 <= j < |a + b|
      ensures !At(a + b + rest, p, j)
    {
      if |a| <= j {
        AtRight(a, b + rest, p, j);
      }
    }
  }

  /** Text whose every '<' is followed by something other than '/'. */
  lemma {:induction false} NoneInOpening(a: string, rest: string, p: string)
    requires BlockEnd(p)
    requires forall j :: 0 <= j < |a| && a[j] == '<' ==> j + 1 < |a| && a[j + 1] != '/'
    ensures NoneIn(a, rest, p)
  {
    forall j | 0 <= j < |a|
      ensures !At(a + rest, p, j)
    {
      AtChar(a + rest, p, j, 0);
      AtChar(a + rest, p, j, 1);
      assert (a + rest)[j] == a[j] && (j + 1 < |a| ==> (a + rest)[j + 1] == a[j + 1]);
    }
  }

  lemma {:induction false} NoneInTag(tag: string, rest: string, p: string)
    requires BlockEnd(p) && Segment(tag) && |tag| > 1 && tag[1] != '/'
    ensures NoneIn(tag, rest, p)
  {
    forall j | 0 < j < |tag|
      ensures tag[j] != '<'
    {
      SegmentChar(tag, j);
    }
    NoneInOpening(tag, rest, p);
  }

  lemma {:induction false} NoneInParamClose(rest: string, p: string)
    requires BlockEnd(p)
    ensures NoneIn(PARAM_CLOSE, rest, p)
  {
    TagsAreSegments();
    forall j | 0 <= j < |PARAM_CLOSE|
      ensures !At(PARAM_CLOSE + rest, p, j)
    {
      AtChar(PARAM_CLOSE + rest, p, j, 0);
      AtChar(PARAM_CLOSE + rest, p, j, 8);
      if j > 0 {
        SegmentChar(PARAM_CLOSE, j);
      } else {
        assert (PARAM_CLOSE + rest)[8] == PARAM_CLOSE[8];
      }
    }
  }

  lemma {:induction false} NoneInValue(value: string, rest: string, p: string)
    requires BlockEnd(p) && !Occurs(value, CLOSER) && AtTag(rest)
    ensures NoneIn(value, rest, p)
  {
    forall j | 0 <= j < |value|
      ensures !At(value + rest, p, j)
    {
      NoCloserInValue(value, rest, j);
      CloserOf(value + rest, p, j);
    }
  }

  lemma {:induction false} ParamTagShape(p: Param)
    requires Name(p.name)
    ensures Segment(ParamTag(p)) && |ParamTag(p)| > 1 && ParamTag(p)[1] != '/'
  {
    TagsAreSegments();
    SegmentExtends(PARAM_OPEN, NAME_IS + p.name + QUOTE + (STRING_IS + Kind(p) + QUOTE) + ">");
    TagShape(p);
    assert PARAM_OPEN[1] == '｜';
  }

  lemma {:induction false} NoneInParams(ps: seq<Param>, rest: string, p: string)
    requires BlockEnd(p) && GoodParams(ps)
    ensures NoneIn(RenderParams(ps), rest, p)
  {
    if ps != [] {
      var q, more := ps[0], RenderParams(ps[1..]);
      hide NoneIn, ParamTag, BlockEnd;
      NoneInParams(ps[1..], rest, p);
      NoneInParamClose(more + rest, p);
      NoneInJoin(PARAM_CLOSE, more, rest, p);
      var closed := PARAM_CLOSE + more;
      assert AtTag(closed + rest);
      NoneInValue(q.value, closed + rest, p);
      NoneInJoin(q.value, closed, rest, p);
      ParamTagShape(q);
      NoneInTag(ParamTag(q), q.value + closed + rest, p);
      NoneInJoin(ParamTag(q), q.value + closed, rest, p);
      NoneInOpening(q.gap, ParamTag(q) + (q.value + closed) + rest, p);
      NoneInJoin(q.gap, ParamTag(q) + (q.value + closed), rest, p);
      assert q.value + closed == q.value + PARAM_CLOSE + more;
      assert RenderParams(ps) == q.gap + (ParamTag(q) + (q.value + closed));
    }
  }

  lemma {:induction false} FindAfterNone(a: string, p: string, rest: string)
    requires NoneIn(a, p + rest, p)
    ensures var s := a + p + rest;
            Find(s, p) == |a| && s[..|a|] == a && s[..|a + p|] == a + p && s[|a + p|..] == rest
  {
    var s := a + p + rest;
    assert s == a + (p + rest);
    assert s[|a|..|a| + |p|] == p;
    FindIs(s, p, |a|);
  }

  function InvokeFront(i: Invoke): string {
    INVOKE_OPEN + NAME_IS + i.name + QUOTE + ">"
  }

  lemma {:induction false} InvokeFrontShape(i: Invoke)
    requires Name(i.name)
    ensures Segment(InvokeFront(i)) && |InvokeFront(i)| > 1 && InvokeFront(i)[1] != '/'
    ensures RenderInvoke(i) == InvokeFront(i) + (RenderParams(i.params) + i.end) + INVOKE_CLOSE
  {
    InvokeTagsAreSegments();
    assert Plain(NAME_IS + i.name + QUOTE + ">");
    SegmentExtends(INVOKE_OPEN, NAME_IS + i.name + QUOTE + ">");
    assert INVOKE_OPEN[1] == '｜';
    hide RenderParams, INVOKE_CLOSE, INVOKE_OPEN, NAME_IS, QUOTE;
    var t := RenderParams(i.params) + i.end;
    assert INVOKE_OPEN + (NAME_IS + i.name + QUOTE + (">" + t)) == INVOKE_OPEN + NAME_IS + i.name + QUOTE + ">" + t;
    assert INVOKE_OPEN + (NAME_IS + i.name + QUOTE + ">") == INVOKE_OPEN + NAME_IS + i.name + QUOTE + ">";
  }

  /** No block or invoke ends before the invoke's own closing tag. */
  lemma {:induction false} NoneInInvoke(i: Invoke, rest: string, p: string)
    requires BlockEnd(p) && GoodInvoke(i)
    ensures NoneIn(InvokeFront(i) + (RenderParams(i.params) + i.end), rest, p)
  {
    hide NoneIn, InvokeFront, RenderParams;
    NoneInOpening(i.end, rest, p);
    NoneInParams(i.params, i.end + rest, p);
    NoneInJoin(RenderParams(i.params), i.end, rest, p);
    InvokeFrontShape(i);
    NoneInTag(InvokeFront(i), RenderParams(i.params) + i.end + rest, p);
    NoneInJoin(InvokeFront(i), RenderParams(i.params) + i.end, rest, p);
  }

  /** A rendered invoke is found and cut out exactly. */
  lemma {:induction false} InvokeFound(i: Invoke, rest: string)
    requires GoodInvoke(i)
    ensures var m := i.gap + (RenderInvoke(i) + rest);
            && InvokeStart(m) == |i.gap| && InvokeEnd(m) == |i.gap| + |RenderInvoke(i)|
            && m[InvokeStart(m)..InvokeEnd(m)] == RenderInvoke(i) && m[InvokeEnd(m)..] == rest
  {
    var block := RenderInvoke(i);
    OpenShape(i);
    hide *;
    InvokeOpens(i.gap, block, rest);
    InvokeCloses(i, rest);
    InvokeBounds(i.gap + (block + rest), |i.gap|, |block|);
    SliceTo(i.gap, block, rest);
  }

  lemma {:induction false} InvokeOpens(gap: string, block: string, rest: string)
    requires Plain(gap) && INVOKE_OPEN <= block
    ensures Find(gap + (block + rest), INVOKE_OPEN) == |gap| && (gap + (block + rest))[|gap|..] == block + rest
  {
    assert INVOKE_OPEN[0] == '<';
    hide Find;
    var tail := block[|INVOKE_OPEN|..] + rest;
    assert gap + (block + rest) == gap + INVOKE_OPEN + tail;
    FindBehind(gap, INVOKE_OPEN, tail);
    TailFrom(gap, block + rest);
  }

  lemma {:induction false} InvokeCloses(i: Invoke, rest: string)
    requires GoodInvoke(i)
    ensures Find(RenderInvoke(i) + rest, INVOKE_CLOSE) == |RenderInvoke(i)| - |INVOKE_CLOSE|
  {
    OpenShape(i);
    hide Find, RenderInvoke, RenderParams, InvokeFront, GoodInvoke;
    InvokeFrontShape(i);
    NoneInInvoke(i, INVOKE_CLOSE + rest, INVOKE_CLOSE);
    FindAfterNone(InvokeFront(i) + (RenderParams(i.params) + i.end), INVOKE_CLOSE, rest);
  }

  lemma {:induction false} InvokeBounds(m: string, start: nat, n: nat)
    requires Find(m, INVOKE_OPEN) == start <= |m|
    requires Find(m[start..], INVOKE_CLOSE) == n - |INVOKE_CLOSE| >= 0
    ensures InvokeStart(m) == start && InvokeEnd(m) == start + n
  {
    hide Find;
  }

  lemma {:induction false} OpenShape(i: Invoke)
    requires GoodInvoke(i)
    ensures Plain(i.gap) && INVOKE_OPEN <= RenderInvoke(i) && Name(i.name) && |RenderInvoke(i)| >= |INVOKE_CLOSE|
    ensures BlockEnd(INVOKE_CLOSE)
  {
    hide InvokeBody;
  }

  ghost predicate GoodInvokes(invokes: seq<Invoke>) {
    invokes == [] || (GoodInvoke(invokes[0]) && GoodInvokes(invokes[1..]))
  }

  /** Draining a well-formed block yields exactly its invokes, in order. */
  lemma {:induction false} DrainBlock(invokes: seq<Invoke>, end: string, counter: nat)
    requires GoodInvokes(invokes) && Plain(end)
    ensures Drain(RenderBlock(invokes, end), counter) == Drained(CallsOf(invokes, counter), end, counter + |invokes|)
    decreases |invokes|
  {
    if invokes == [] {
      InvokeTagsAreSegments();
      NotIn(end, INVOKE_OPEN);
    } else {
      BlockFirst(invokes, end, counter);
      hide *;
      var i, rest := invokes[0], RenderBlock(invokes[1..], end);
      InvokeFound(i, rest);
      InvokeRoundTrip(i, counter);
      DrainFirst(i.gap + (RenderInvoke(i) + rest), rest, counter);
      DrainBlock(invokes[1..], end, counter + 1);
      PrependFirst(invokes, end, counter);
    }
  }

  lemma {:induction false} BlockFirst(invokes: seq<Invoke>, end: string, counter: nat)
    requires invokes != [] && GoodInvokes(invokes)
    ensures var i := invokes[0];
            && RenderBlock(invokes, end) == i.gap + (RenderInvoke(i) + RenderBlock(invokes[1..], end))
            && GoodInvoke(i) && GoodInvokes(invokes[1..])
  {
    hide RenderInvoke, GoodInvoke;
  }

  lemma {:induction false} PrependFirst(invokes: seq<Invoke>, end: string, counter: nat)
    requires invokes != []
    ensures Prepend([ToolCall(CallId(counter + 1), invokes[0].name, Args(invokes[0].params, map[]))],
                    Drained(CallsOf(invokes[1..], counter + 1), end, counter + 1 + |invokes[1..]|))
         == Drained(CallsOf(invokes, counter), end, counter + |invokes|)
  {
    hide CallId, Args;
  }

  lemma {:induction false} DrainFirst(m: string, rest: string, counter: nat)
    requires InvokeEnd(m) != -1 && m[InvokeEnd(m)..] == rest
    requires ParseInvoke(m[InvokeStart(m)..InvokeEnd(m)], counter).Some?
    ensures var call := ParseInvoke(m[InvokeStart(m)..InvokeEnd(m)], counter).value;
            Drain(m, counter) == Prepend([call], Drain(rest, counter + 1))
  {
    hide InvokeEnd, InvokeStart, ParseInvoke, Drain, Consumed;
    DrainStep(m, counter);
  }

  /** The block's closing tag is the first one. */
  lemma {:induction false} NoneInBlock(invokes: seq<Invoke>, end: string, rest: string)
    requires GoodInvokes(invokes) && Plain(end)
    ensures NoneIn(RenderBlock(invokes, end), rest, CLOSE)
    decreases |invokes|
  {
    if invokes == [] {
      NoneInOpening(end, rest, CLOSE);
    } else {
      var i, more := invokes[0], RenderBlock(invokes[1..], end);
      hide NoneIn, GoodInvoke, RenderInvoke, InvokeFront, RenderParams;
      NoneInBlock(invokes[1..], end, rest);
      NoneInInvokeClose(more + rest);
      NoneInJoin(INVOKE_CLOSE, more, rest, CLOSE);
      var a := InvokeFront(i) + (RenderParams(i.params) + i.end);
      GoodInvokeName(i);
      InvokeFrontShape(i);
      NoneInInvoke(i, INVOKE_CLOSE + more + rest, CLOSE);
      NoneInJoin(a, INVOKE_CLOSE + more, rest, CLOSE);
      NoneInOpening(i.gap, a + (INVOKE_CLOSE + more) + rest, CLOSE);
      NoneInJoin(i.gap, a + (INVOKE_CLOSE + more), rest, CLOSE);
      Assoc(a, INVOKE_CLOSE, more);
    }
  }

  lemma {:induction false} GoodInvokeName(i: Invoke)
    requires GoodInvoke(i)
    ensures Name(i.name) && Plain(i.gap)
  {
  }

  lemma {:induction false} NoneInInvokeClose(rest: string)
    ensures NoneIn(INVOKE_CLOSE, rest, CLOSE)
  {
    var s := INVOKE_CLOSE + rest;
    assert s[0..0 + |INVOKE_CLOSE|] == INVOKE_CLOSE;
    forall j | 0 <= j < |INVOKE_CLOSE|
      ensures !At(s, CLOSE, j)
    {
      CloseIsNotInvokeClose(s, j, 0);
    }
  }
}
