/** Markdown files with a YAML head (`harness-capability/src/frontmatter.rs`). */
module Frontmatter {
  import opened Options
  import opened Text

  datatype Layer = L0 | L1 | L2 | L3

  datatype Status = Candidate | Active | Superseded | Archived

  /** `rest` stands for the fields that promotion neither reads nor writes. */
  datatype FrontMatter = FrontMatter(
    id: string,
    layer: Layer,
    status: Status,
    updatedAt: string,
    confidence: real,
    importance: real,
    tags: seq<string>,
    sourceRefs: seq<string>,
    rest: string)

  /** The YAML library. */
  datatype Yaml = Yaml(write: FrontMatter -> string, read: string -> Option<FrontMatter>)

  const FENCE := "---\n"
  const CLOSING := "\n---"

  datatype ParsedMarkdown = ParsedMarkdown(frontMatter: Option<FrontMatter>, body: string)

  function TrimNewlines(s: string): (r: string)
    ensures r != [] ==> r[0] != '\n'
  {
    if s != [] && s[0] == '\n' then TrimNewlines(s[1..]) else s
  }

  /** A file without a well-formed head is all body. */
  function ParseMarkdown(yaml: Yaml, text: string): ParsedMarkdown {
    if !(FENCE <= text) then ParsedMarkdown(None, text)
    else
      var rest := text[|FENCE|..];
      var end := Find(rest, CLOSING);
      if end == -1 then ParsedMarkdown(None, text)
      else
        match yaml.read(rest[..end])
        case None => ParsedMarkdown(None, text)
        case Some(fm) => ParsedMarkdown(Some(fm), TrimNewlines(rest[end + |CLOSING|..]))
  }

  function RenderMarkdown(yaml: Yaml, fm: FrontMatter, body: string): string {
    FENCE + yaml.write(fm) + "---\n\n" + body
  }

  /** What is assumed of the library: printed values are closed by a newline, contain no line that
      starts with three dashes behind their first, and are read back as they were. */
  ghost predicate PrintsBack(yaml: Yaml, fm: FrontMatter) {
    var text := yaml.write(fm);
    && text != [] && text[|text| - 1] == '\n'
    && !Occurs(text, CLOSING)
    && yaml.read(text[..|text| - 1]) == Some(fm)
  }

  lemma {:induction false} ClosingFound(text: string, body: string)
    requires text != [] && text[|text| - 1] == '\n' && !Occurs(text, CLOSING)
    ensures Find(text + "---\n\n" + body, CLOSING) == |text| - 1
  {
    var all := text + "---\n\n" + body;
    var n := |text| - 1;
    assert all[n..n + 4] == CLOSING;
    forall j | 0 <= j < n
      ensures !At(all, CLOSING, j)
    {
      if j + 4 <= |text| {
        assert all == text + ("---\n\n" + body);
        AtLeft(text, "---\n\n" + body, CLOSING, j);
        assert At(text, CLOSING, j) ==> Occurs(text, CLOSING);
      } else {
        AtChar(all, CLOSING, j, (n - j));
        assert all[n] == '\n';
      }
    }
    FindIs(all, CLOSING, n);
  }

  lemma {:induction false} NewlineGoes(body: string)
    ensures TrimNewlines("\n" + body) == TrimNewlines(body)
  {
    TailFrom("\n", body);
  }

  lemma {:induction false} NewlinesGo(body: string)
    ensures TrimNewlines("\n\n" + body) == TrimNewlines(body)
  {
    hide TrimNewlines;
    assert "\n\n" == "\n" + "\n";
    Assoc("\n", "\n", body);
    NewlineGoes("\n" + body);
    NewlineGoes(body);
  }

  /** Where a written file falls apart again. */
  lemma {:induction false} RenderedParts(printed: string, body: string)
    requires printed != [] && printed[|printed| - 1] == '\n' && !Occurs(printed, CLOSING)
    ensures var text := FENCE + printed + "---\n\n" + body; var rest, end := text[|FENCE|..], |printed| - 1;
            && FENCE <= text
            && Find(rest, CLOSING) == end
            && rest[..end] == printed[..end] && rest[end + |CLOSING|..] == "\n\n" + body
  {
    hide Find;
    var head := printed[..|printed| - 1];
    var rest := printed + "---\n\n" + body;
    ClosingFound(printed, body);
    Assoc(FENCE + printed, "---\n\n", body);
    Assoc(FENCE, printed, "---\n\n" + body);
    Assoc(printed, "---\n\n", body);
    TailFrom(FENCE, rest);
    assert printed == head + "\n";
    assert rest == head + (CLOSING + ("\n\n" + body));
    SliceTo(head, CLOSING, "\n\n" + body);
  }

  /** Reading what was written gives the head back, and the body without leading blank lines. */
  lemma {:induction false} ParseUndoesRender(yaml: Yaml, fm: FrontMatter, body: string)
    requires PrintsBack(yaml, fm)
    ensures ParseMarkdown(yaml, RenderMarkdown(yaml, fm, body)) == ParsedMarkdown(Some(fm), TrimNewlines(body))
  {
    hide Find, TrimNewlines;
    RenderedParts(yaml.write(fm), body);
    NewlinesGo(body);
  }

  /** Exactly the bodies that do not start with a newline survive unchanged. */
  lemma {:induction false} RoundTripIff(yaml: Yaml, fm: FrontMatter, body: string)
    requires PrintsBack(yaml, fm)
    ensures ParseMarkdown(yaml, RenderMarkdown(yaml, fm, body)) == ParsedMarkdown(Some(fm), body)
            <==> (body == "" || body[0] != '\n')
  {
    ParseUndoesRender(yaml, fm, body);
  }
}
