/** What keys, judged lengths, promoted texts and fact names are made of. */
module PromotionTexts {
  import opened Text
  import opened Lines
  import opened Terms
  import opened Frontmatter
  import opened PromotionKeys
  import opened Promotion

  // ---------- keys and lengths ----------

  /** The positions at which `p` holds, in order. */
  ghost predicate PositionsOf(line: string, p: char -> bool, at: seq<nat>) {
    && (forall k :: 0 <= k < |at| ==> at[k] < |line| && p(line[at[k]]))
    && (forall k, l :: 0 <= k < l < |at| ==> at[k] < at[l])
    && (forall i :: 0 <= i < |line| && p(line[i]) ==> i in at)
  }

  lemma {:induction false} PositionsMore(line: string, p: char -> bool, at: seq<nat>, c: char)
    requires PositionsOf(line, p, at)
    ensures PositionsOf(line + [c], p, if p(c) then at + [|line|] else at)
  {
    var all, more := line + [c], if p(c) then at + [|line|] else at;
    forall i | 0 <= i < |all| && p(all[i])
      ensures i in more
    {
      assert i < |line| ==> all[i] == line[i] && i in at;
    }
  }

  lemma {:induction false} KeyMore(letters: Letters, line: string, c: char)
    ensures LineKey(letters, line + [c]) == LineKey(letters, line) + if letters.alnum(c) then [letters.lower(c)] else ""
    ensures LineChars(line + [c]) == LineChars(line) + if IsWhite(c) then 0 else 1
  {
    hide IsWhite;
    LineKeyAppend(letters, line, [c]);
    assert [c][1..] == "";
  }

  /** `key` holds the lower-case forms of the characters at these positions. */
  ghost predicate KeyAt(letters: Letters, line: string, at: seq<nat>, key: string) {
    |key| == |at| && forall k :: 0 <= k < |at| ==> at[k] < |line| && key[k] == letters.lower(line[at[k]])
  }

  lemma {:induction false} KeyAtKeeps(letters: Letters, line: string, at: seq<nat>, key: string, c: char)
    requires KeyAt(letters, line, at, key)
    ensures KeyAt(letters, line + [c], at, key)
    ensures KeyAt(letters, line + [c], at + [|line|], key + [letters.lower(c)])
  {
    var all, more, longer := line + [c], at + [|line|], key + [letters.lower(c)];
    forall k | 0 <= k < |more|
      ensures more[k] < |all| && longer[k] == letters.lower(all[more[k]])
    {
      assert k < |at| ==> more[k] == at[k] && all[at[k]] == line[at[k]];
    }
  }

  /** The key of a line is made of its letters and digits, in order and in lower case. */
  lemma {:induction false} LineKeyIs(letters: Letters, line: string) returns (at: seq<nat>)
    ensures PositionsOf(line, letters.alnum, at) && KeyAt(letters, line, at, LineKey(letters, line))
    decreases |line|
  {
    hide *;
    if line == [] {
      at := [];
      NoKey(letters);
    } else {
      var n := |line| - 1;
      var init, c := line[..n], line[n];
      var before := LineKeyIs(letters, init);
      KeyMore(letters, init, c);
      KeyAtKeeps(letters, init, before, LineKey(letters, init), c);
      PositionsMore(init, letters.alnum, before, c);
      at := if letters.alnum(c) then before + [n] else before;
      assert line == init + [c];
      assert LineKey(letters, init) + "" == LineKey(letters, init);
    }
  }

  lemma {:induction false} NoKey(letters: Letters)
    ensures PositionsOf("", letters.alnum, []) && KeyAt(letters, "", [], LineKey(letters, ""))
  {
  }

  /** The length of a line counts its visible characters. */
  lemma {:induction false} LineCharsIs(letters: Letters, line: string) returns (at: seq<nat>)
    ensures PositionsOf(line, (c: char) => !IsWhite(c), at) && LineChars(line) == |at|
    decreases |line|
  {
    hide IsWhite;
    if line == [] {
      at := [];
    } else {
      var n := |line| - 1;
      assert line == line[..n] + [line[n]];
      var before := LineCharsIs(letters, line[..n]);
      KeyMore(letters, line[..n], line[n]);
      PositionsMore(line[..n], (c: char) => !IsWhite(c), before, line[n]);
      at := if IsWhite(line[n]) then before else before + [n];
    }
  }

  /** The key before it is cut. */
  function FullKey(letters: Letters, body: string): string {
    LinesKey(letters, LinesOf(body))
  }

  /** A heading or a status line. */
  predicate Silent(line: string) {
    "#" <= Trim(line) || "> 状态：" <= Trim(line)
  }

  /** Line by line, headings and status lines add nothing to the key and the length; the key is the
      first 64 characters. */
  lemma {:induction false} KeyByLine(letters: Letters, line: string, rest: string)
    requires '\n' !in line && StripCr(line) == line
    ensures FullKey(letters, line + "\n" + rest)
         == (if Silent(line) then "" else LineKey(letters, line)) + FullKey(letters, rest)
    ensures BodyChars(line + "\n" + rest) == (if Silent(line) then 0 else LineChars(line)) + BodyChars(rest)
    ensures FullKey(letters, "") == "" && BodyChars("") == 0
    ensures NormKey(letters, rest) == FullKey(letters, rest)[..if |FullKey(letters, rest)| < 64 then |FullKey(letters, rest)| else 64]
  {
    hide Trim, LinesOf, LineKey, LineChars;
    LinesFirst(line, rest);
    LinesKeyCons(letters, line, LinesOf(rest));
    NoLines();
  }

  // ---------- the promoted text ----------

  function LinesText(lines: seq<string>): string {
    if lines == [] then "" else lines[0] + "\n" + LinesText(lines[1..])
  }

  predicate PlainLine(line: string) {
    '\n' !in line && '\r' !in line
  }

  lemma {:induction false} TextHasLines(lines: seq<string>, tail: string)
    requires forall l :: l in lines ==> PlainLine(l)
    ensures LinesOf(LinesText(lines) + tail) == lines + LinesOf(tail)
    decreases |lines|
  {
    hide LinesOf;
    if lines == [] {
      assert "" + tail == tail;
      assert [] + LinesOf(tail) == LinesOf(tail);
    } else {
      var line, rest := lines[0], LinesText(lines[1..]) + tail;
      assert line in lines && forall l :: l in lines[1..] ==> l in lines;
      TextHasLines(lines[1..], tail);
      assert LinesText(lines) + tail == line + "\n" + rest;
      LinesFirst(line, rest);
      assert StripCr(line) == line;
      assert [line] + (lines[1..] + LinesOf(tail)) == lines + LinesOf(tail);
    }
  }

  /** The lines that are no status lines, in order. */
  function Unstated(lines: seq<string>): seq<string> {
    if lines == [] then [] else (if "> 状态：" <= Trim(lines[0]) then [] else [lines[0]]) + Unstated(lines[1..])
  }

  lemma {:induction false} KeptIsUnstated(lines: seq<string>)
    ensures KeptText(lines) == LinesText(Unstated(lines))
    ensures forall l :: l in Unstated(lines) <==> l in lines && !("> 状态：" <= Trim(l))
  {
    hide Trim;
    if lines != [] {
      KeptIsUnstated(lines[1..]);
      var rest := Unstated(lines[1..]);
      assert ([lines[0]] + rest)[1..] == rest;
      assert [] + rest == rest;
      assert forall l :: l in lines <==> l == lines[0] || l in lines[1..];
    }
  }

  /** A promoted text has the lines it had, less its status lines, then a blank line and one status
      line that names the date. */
  lemma {:induction false} PromotedLines(lines: seq<string>, date: string)
    requires (forall l :: l in lines ==> PlainLine(l)) && PlainLine(date)
    ensures LinesOf(PromotedBody(LinesText(lines), date))
         == Unstated(lines) + ["", "> 状态：active（Phase 3 审核晋升于 " + date + "）。"]
  {
    hide *;
    var status := NewStatus(date);
    StatusLineIs(date);
    LinesOfText(lines);
    KeptIsUnstated(lines);
    var kept := Unstated(lines);
    EndingText(kept, status);
    AddedLinesPlain(kept, status);
    LinesOfText(kept + ["", status]);
    PromotedBodyIs(LinesText(lines), date, lines);
  }

  lemma {:induction false} StatusLineIs(date: string)
    requires PlainLine(date)
    ensures PlainLine(NewStatus(date)) && NewStatus(date) == "> 状态：active（Phase 3 审核晋升于 " + date + "）。"
  {
    hide *;
    StatusFront(date);
    FrontIsPlain();
    PlainJoin("> 状态：active（Phase 3 审核晋升于 ", date);
    PlainJoin("> 状态：active（Phase 3 审核晋升于 " + date, "）。");
  }

  lemma {:induction false} StatusFront(date: string)
    ensures NewStatus(date) == "> 状态：active（Phase 3 审核晋升于 " + date + "）。"
  {
    assert STATUS + "active（Phase 3 审核晋升于 " == "> 状态：active（Phase 3 审核晋升于 ";
  }

  lemma {:induction false} FrontIsPlain()
    ensures PlainLine("> 状态：active（Phase 3 审核晋升于 ") && PlainLine("）。")
  {
  }

  lemma {:induction false} PlainJoin(a: string, b: string)
    requires PlainLine(a) && PlainLine(b)
    ensures PlainLine(a + b)
  {
  }

  lemma {:induction false} PromotedBodyIs(body: string, date: string, lines: seq<string>)
    requires LinesOf(body) == lines
    ensures PromotedBody(body, date) == KeptText(lines) + "\n" + NewStatus(date) + "\n"
  {
    hide LinesOf, NewStatus, KeptText;
  }

  lemma {:induction false} LinesOfText(lines: seq<string>)
    requires forall l :: l in lines ==> PlainLine(l)
    ensures LinesOf(LinesText(lines)) == lines
  {
    hide LinesOf, PlainLine;
    TextHasLines(lines, "");
    NoLines();
    assert LinesText(lines) + "" == LinesText(lines) && lines + [] == lines;
  }

  lemma {:induction false} AddedLinesPlain(kept: seq<string>, status: string)
    requires (forall l :: l in kept ==> PlainLine(l)) && PlainLine(status)
    ensures forall l :: l in kept + ["", status] ==> PlainLine(l)
  {
  }

  lemma {:induction false} EndingText(kept: seq<string>, status: string)
    ensures LinesText(kept + ["", status]) == LinesText(kept) + "\n" + status + "\n"
    decreases |kept|
  {
    if kept == [] {
      assert kept + ["", status] == ["", status] && ["", status][1..] == [status] && [status][1..] == [];
      assert status + "\n" + "" == status + "\n";
    } else {
      var all := kept + ["", status];
      assert all[0] == kept[0] && all[1..] == kept[1..] + ["", status];
      EndingText(kept[1..], status);
      assert kept[0] + "\n" + (LinesText(kept[1..]) + "\n" + status + "\n")
          == kept[0] + "\n" + LinesText(kept[1..]) + "\n" + status + "\n";
    }
  }

  // ---------- fact names ----------

  /** A character that a file name keeps. */
  predicate NameChar(c: char) {
    (IsWord(c) && Lower(c) == c) || c == '.' || c == '-'
  }

  /** File names consist of such characters; a name made of them is left as it is. Otherwise letters
      are written in lower case and every other character as a dash. */
  lemma {:induction false} SanitizedName(raw: string)
    ensures |SanitizeId(raw)| == |raw| && forall c :: c in SanitizeId(raw) ==> NameChar(c)
    ensures SanitizeId(raw) == raw <==> forall c :: c in raw ==> NameChar(c)
    ensures SanitizeId(SanitizeId(raw)) == SanitizeId(raw)
    ensures forall i :: 0 <= i < |raw| ==>
              SanitizeId(raw)[i] == if NameChar(Lower(raw[i])) then Lower(raw[i]) else '-'
  {
    var s := SanitizeId(raw);
    forall i | 0 <= i < |s|
      ensures NameChar(s[i])
    {
    }
    forall i | 0 <= i < |raw|
      ensures s[i] == raw[i] <==> NameChar(raw[i])
    {
    }
    if forall c :: c in raw ==> NameChar(c) {
      assert forall i :: 0 <= i < |raw| ==> raw[i] in raw;
    }
    if s == raw {
      assert forall i :: 0 <= i < |raw| ==> raw[i] == s[i];
    }
  }

  /** A fact is stored under its id, or under the name of its candidate if it has none. */
  lemma {:induction false} FactNameIs(name: string, fm: FrontMatter)
    requires forall c :: c in (if fm.id != "" then fm.id else name) ==> NameChar(c)
    ensures fm.id != "" ==> FactName(name + ".md", fm) == fm.id + ".md"
    ensures fm.id == "" ==> FactName(name + ".md", fm) == name + ".md"
  {
    hide IsWord, Lower;
    SanitizedName(if fm.id != "" then fm.id else name);
    var file := name + ".md";
    assert file[|file| - 3..] == ".md" && file[..|file| - 3] == name;
    assert Stem(file) == name;
  }
}
