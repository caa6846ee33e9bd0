/** Lines and white space, as `str::lines` and `str::trim` define them. */
module Lines {
  import opened Text

  /** `char::is_whitespace`. */
  predicate IsWhite(c: char) {
    || '\t' <= c <= '\r' || c == ' ' || c == '\U{85}' || c == '\U{A0}' || c == '\U{1680}'
    || '\U{2000}' <= c <= '\U{200A}' || c == '\U{2028}' || c == '\U{2029}' || c == '\U{202F}'
    || c == '\U{205F}' || c == '\U{3000}'
  }

  function TrimStart(s: string): (r: string)
    ensures |r| <= |s| && r == s[|s| - |r|..]
    ensures r != [] ==> !IsWhite(r[0])
  {
    if s != [] && IsWhite(s[0]) then TrimStart(s[1..]) else s
  }

  function TrimEnd(s: string): (r: string)
    ensures |r| <= |s| && r == s[..|r|]
    ensures r != [] ==> !IsWhite(r[|r| - 1])
  {
    if s != [] && IsWhite(s[|s| - 1]) then TrimEnd(s[..|s| - 1]) else s
  }

  function Trim(s: string): string {
    TrimEnd(TrimStart(s))
  }

  predicate Trimmed(s: string) {
    s == [] || (!IsWhite(s[0]) && !IsWhite(s[|s| - 1]))
  }

  lemma {:induction false} TrimTrimmed(s: string)
    requires Trimmed(s)
    ensures TrimStart(s) == s && TrimEnd(s) == s && Trim(s) == s
  {
  }

  /** White space in front of trimmed text is what trimming removes. */
  lemma {:induction false} TrimLead(w: string, s: string)
    requires Trimmed(s) && forall c :: c in w ==> IsWhite(c)
    ensures Trim(w + s) == s
  {
    if w == [] {
      assert w + s == s;
      TrimTrimmed(s);
    } else {
      assert (w + s)[1..] == w[1..] + s;
      assert w[0] in w;
      TrimLead(w[1..], s);
    }
  }

  /** A line's text without the carriage return of its "\r\n". */
  function StripCr(s: string): string {
    if s != [] && s[|s| - 1] == '\r' then s[..|s| - 1] else s
  }

  /** `str::lines`. */
  function LinesOf(s: string): seq<string>
    decreases |s|
  {
    if s == [] then []
    else
      var i := Find(s, "\n");
      if i == -1 then [s] else [StripCr(s[..i])] + LinesOf(s[i + 1..])
  }

  lemma {:induction false} NewlineEnds(line: string, rest: string)
    requires '\n' !in line
    ensures Find(line + "\n" + rest, "\n") == |line|
    ensures (line + "\n" + rest)[..|line|] == line && (line + "\n" + rest)[|line| + 1..] == rest
  {
    var s := line + "\n" + rest;
    assert s[|line|..|line| + 1] == "\n";
    forall j | 0 <= j < |line|
      ensures !At(s, "\n", j)
    {
      AtChar(s, "\n", j, 0);
      assert s[j] == line[j];
    }
    FindIs(s, "\n", |line|);
  }

  lemma {:induction false} LinesFirst(line: string, rest: string)
    requires '\n' !in line
    ensures LinesOf(line + "\n" + rest) == [StripCr(line)] + LinesOf(rest)
  {
    NewlineEnds(line, rest);
  }

  // ---------- excerpts ----------

  /** Appends lines while they fit; the first that does not is the end. */
  function Fill(out: string, lines: seq<string>, limit: nat): (r: string)
    ensures out <= r
    ensures |r| <= if |out| <= limit then limit else |out|
    decreases |lines|
  {
    if lines == [] || |out| + |lines[0]| > limit then out
    else Fill(out + lines[0], lines[1..], limit)
  }

  /** What is appended is the longest prefix of the lines that fits. */
  lemma {:induction false} FillIsLongest(out: string, lines: seq<string>, limit: nat) returns (k: nat)
    ensures k <= |lines| && Fill(out, lines, limit) == out + Concat(lines[..k])
    ensures k < |lines| ==> |Fill(out, lines, limit)| + |lines[k]| > limit
    decreases |lines|
  {
    if lines == [] || |out| + |lines[0]| > limit {
      k := 0;
      assert out + Concat(lines[..0]) == out;
    } else {
      var j := FillIsLongest(out + lines[0], lines[1..], limit);
      k := j + 1;
      assert lines[..k][1..] == lines[1..][..j] && lines[..k][0] == lines[0];
      Assoc(out, lines[0], Concat(lines[1..][..j]));
    }
  }
}
