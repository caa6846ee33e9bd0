/** The key that tells facts apart, and the text of a promoted fact
    (`harness-capability/src/promotion.rs`). */
module PromotionKeys {
  import opened Text
  import opened Lines
  import opened Frontmatter

  const STATUS := "> 状态："
  const KEY_LENGTH := 64

  /** `is_alphanumeric` and the first character of `to_lowercase`. */
  datatype Letters = Letters(alnum: char -> bool, lower: char -> char)

  predicate IsStatusLine(line: string) {
    STATUS <= Trim(line)
  }

  predicate IsNoise(line: string) {
    "#" <= Trim(line) || IsStatusLine(line)
  }

  function LineKey(letters: Letters, line: string): string {
    if line == [] then ""
    else (if letters.alnum(line[0]) then [letters.lower(line[0])] else "") + LineKey(letters, line[1..])
  }

  function LinesKey(letters: Letters, lines: seq<string>): string {
    if lines == [] then ""
    else (if IsNoise(lines[0]) then "" else LineKey(letters, lines[0])) + LinesKey(letters, lines[1..])
  }

  function NormKey(letters: Letters, body: string): string {
    Take(LinesKey(letters, LinesOf(body)), KEY_LENGTH)
  }

  function LineChars(line: string): nat {
    if line == [] then 0 else (if IsWhite(line[0]) then 0 else 1) + LineChars(line[1..])
  }

  function LinesChars(lines: seq<string>): nat {
    if lines == [] then 0 else (if IsNoise(lines[0]) then 0 else LineChars(lines[0])) + LinesChars(lines[1..])
  }

  /** Visible characters outside headings and status lines. */
  function BodyChars(body: string): nat {
    LinesChars(LinesOf(body))
  }

  // ---------- the promoted text ----------

  function KeptText(lines: seq<string>): string {
    if lines == [] then ""
    else (if IsStatusLine(lines[0]) then "" else lines[0] + "\n") + KeptText(lines[1..])
  }

  function NewStatus(date: string): string {
    STATUS + "active（Phase 3 审核晋升于 " + date + "）。"
  }

  function PromotedBody(body: string, date: string): string {
    KeptText(LinesOf(body)) + "\n" + NewStatus(date) + "\n"
  }

  // ---------- the loops ----------

  method NormKeyLoop(letters: Letters, body: string) returns (key: string)
    ensures key == NormKey(letters, body)
  {
    hide IsNoise, LineKey;
    var out := "";
    var lines := LinesOf(body);
    for i := 0 to |lines|
      invariant LinesKey(letters, lines) == out + LinesKey(letters, lines[i..])
    {
      assert lines[i..][1..] == lines[i + 1..];
      if IsNoise(lines[i]) {
        continue;
      }
      Assoc(out, LineKey(letters, lines[i]), LinesKey(letters, lines[i + 1..]));
      out := out + LineKey(letters, lines[i]);
    }
    assert out + "" == out;
    key := Take(out, KEY_LENGTH);
  }

  method PromotedBodyLoop(body: string, date: string) returns (out: string)
    ensures out == PromotedBody(body, date)
  {
    hide IsStatusLine, NewStatus, LinesOf;
    out := "";
    var lines := LinesOf(body);
    for i := 0 to |lines|
      invariant KeptText(lines) == out + KeptText(lines[i..])
    {
      assert lines[i..][1..] == lines[i + 1..];
      if IsNoise(lines[i]) && IsStatusLine(lines[i]) {
        continue;
      }
      Assoc(out, lines[i] + "\n", KeptText(lines[i + 1..]));
      out := out + lines[i];
      out := out + "\n";
    }
    assert out + "" == out;
    out := out + "\n" + NewStatus(date) + "\n";
  }

  // ---------- lines that end in a carriage return ----------

  lemma {:induction false} TrimCr(line: string)
    ensures Trim(line + "\r") == Trim(line)
  {
    if line == [] {
      assert ("" + "\r")[1..] == "";
    } else if IsWhite(line[0]) {
      assert (line + "\r")[1..] == line[1..] + "\r";
      TrimCr(line[1..]);
    } else {
      assert (line + "\r")[..|line + "\r"| - 1] == line;
    }
  }

  lemma {:induction false} StripCrKeeps(letters: Letters, line: string)
    requires !letters.alnum('\r')
    ensures IsNoise(StripCr(line)) == IsNoise(line) && IsStatusLine(StripCr(line)) == IsStatusLine(line)
    ensures LineKey(letters, StripCr(line)) == LineKey(letters, line)
    ensures LineChars(StripCr(line)) == LineChars(line)
  {
    hide IsWhite, Trim;
    if StripCr(line) != line {
      var head := StripCr(line);
      assert line == head + "\r";
      TrimCr(head);
      LineKeyAppend(letters, head, "\r");
      OneCr(letters);
    }
  }

  lemma {:induction false} OneCr(letters: Letters)
    requires !letters.alnum('\r')
    ensures LineKey(letters, "\r") == "" && LineChars("\r") == 0
  {
    assert "\r"[1..] == "";
  }

  lemma {:induction false} LineKeyAppend(letters: Letters, a: string, b: string)
    ensures LineKey(letters, a + b) == LineKey(letters, a) + LineKey(letters, b)
    ensures LineChars(a + b) == LineChars(a) + LineChars(b)
  {
    hide IsWhite;
    if a == [] {
      assert a + b == b;
    } else {
      assert (a + b)[1..] == a[1..] + b;
      LineKeyAppend(letters, a[1..], b);
    }
  }

  // ---------- promotion does not change the key ----------

  lemma {:induction false} StatusIsNoise(date: string)
    requires '\n' !in date
    ensures IsNoise(NewStatus(date)) && '\n' !in NewStatus(date) && StripCr(NewStatus(date)) == NewStatus(date)
  {
    hide IsWhite, Trim, StripCr;
    var s := NewStatus(date);
    assert s[0] == '>' && s[|s| - 1] == '。';
    VisibleEnds();
    TrimTrimmed(s);
    NoCrEnd(s);
  }

  lemma {:induction false} VisibleEnds()
    ensures !IsWhite('>') && !IsWhite('。')
  {
  }

  lemma {:induction false} NoCrEnd(s: string)
    requires s != [] && s[|s| - 1] != '\r'
    ensures StripCr(s) == s
  {
  }

  /** The lines of the promoted text, as the key sees them. */
  lemma {:induction false} KeptTextLines(letters: Letters, lines: seq<string>, tail: string)
    requires !letters.alnum('\r') && forall l :: l in lines ==> '\n' !in l
    ensures LinesKey(letters, LinesOf(KeptText(lines) + tail))
            == LinesKey(letters, lines) + LinesKey(letters, LinesOf(tail))
    ensures LinesChars(LinesOf(KeptText(lines) + tail)) == LinesChars(lines) + LinesChars(LinesOf(tail))
  {
    hide IsNoise, IsStatusLine, LineKey, LineChars, LinesOf;
    if lines == [] {
      assert KeptText(lines) + tail == tail;
    } else {
      var line := lines[0];
      var rest := KeptText(lines[1..]) + tail;
      assert line in lines;
      KeptTextLines(letters, lines[1..], tail);
      if IsStatusLine(line) {
        NoiseOfStatus(line);
        assert KeptText(lines) + tail == rest;
      } else {
        Assoc(line + "\n", KeptText(lines[1..]), tail);
        LinesFirst(line, rest);
        StripCrKeeps(letters, line);
        LinesKeyCons(letters, StripCr(line), LinesOf(rest));
      }
      Assoc(if IsNoise(line) then "" else LineKey(letters, line), LinesKey(letters, lines[1..]),
            LinesKey(letters, LinesOf(tail)));
    }
  }

  lemma {:induction false} NoiseOfStatus(line: string)
    ensures IsStatusLine(line) ==> IsNoise(line)
  {
  }

  lemma {:induction false} LinesKeyCons(letters: Letters, line: string, lines: seq<string>)
    ensures LinesKey(letters, [line] + lines)
            == (if IsNoise(line) then "" else LineKey(letters, line)) + LinesKey(letters, lines)
    ensures LinesChars([line] + lines) == (if IsNoise(line) then 0 else LineChars(line)) + LinesChars(lines)
  {
    hide IsNoise, LineKey, LineChars;
    assert ([line] + lines)[1..] == lines;
  }

  lemma {:induction false} LinesHaveNoNewline(s: string)
    ensures forall l :: l in LinesOf(s) ==> '\n' !in l
    decreases |s|
  {
    if s != [] {
      var i := Find(s, "\n");
      if i == -1 {
        forall k | 0 <= k < |s|
          ensures s[k] != '\n'
        {
          assert s[k] == '\n' ==> s[k..k + 1] == "\n";
          assert s[k] == '\n' ==> At(s, "\n", k);
        }
      } else {
        LinesHaveNoNewline(s[i + 1..]);
        forall k | 0 <= k < i
          ensures s[k] != '\n'
        {
          assert s[k] == '\n' ==> s[k..k + 1] == "\n";
          assert !At(s, "\n", k);
        }
        assert '\n' !in s[..i];
        assert '\n' !in StripCr(s[..i]);
        assert forall l :: l in LinesOf(s) ==> l == StripCr(s[..i]) || l in LinesOf(s[i + 1..]);
      }
    }
  }

  /** The blank line and the new status line at the end of a promoted text say nothing. */
  lemma {:induction false} EndingIsSilent(letters: Letters, date: string)
    requires '\n' !in date
    ensures LinesKey(letters, LinesOf("\n" + NewStatus(date) + "\n")) == ""
    ensures LinesChars(LinesOf("\n" + NewStatus(date) + "\n")) == 0
  {
    hide LinesOf, NewStatus, IsNoise;
    var status := NewStatus(date);
    StatusIsNoise(date);
    assert "\n" + status + "\n" == "" + "\n" + (status + "\n");
    LinesFirst("", status + "\n");
    assert status + "\n" + "" == status + "\n";
    LinesFirst(status, "");
    NoLines();
    LinesKeyCons(letters, status, []);
    assert StripCr("") == "";
    LinesKeyCons(letters, "", [status]);
  }

  lemma {:induction false} NoLines()
    ensures LinesOf("") == []
  {
  }

  /** A fact keeps its key, and its judged length, when it is promoted. */
  lemma {:induction false} PromotedKeepsKey(letters: Letters, body: string, date: string)
    requires '\n' !in date && !letters.alnum('\r')
    ensures NormKey(letters, PromotedBody(body, date)) == NormKey(letters, body)
    ensures BodyChars(PromotedBody(body, date)) == BodyChars(body)
  {
    hide LinesOf, LinesKey, LinesChars, NewStatus, KeptText;
    var lines := LinesOf(body);
    var tail := "\n" + NewStatus(date) + "\n";
    LinesHaveNoNewline(body);
    KeptTextLines(letters, lines, tail);
    EndingIsSilent(letters, date);
    Assoc(KeptText(lines), "\n" + NewStatus(date), "\n");
    Assoc(KeptText(lines), "\n", NewStatus(date));
    assert LinesKey(letters, lines) + "" == LinesKey(letters, lines);
  }

  /** Leading blank lines, which reading a file drops, do not matter either. */
  lemma {:induction false} TrimmedKeepsKey(letters: Letters, body: string)
    ensures NormKey(letters, TrimNewlines(body)) == NormKey(letters, body)
  {
    hide LinesOf, LinesKey;
    if body != [] && body[0] == '\n' {
      TrimmedKeepsKey(letters, body[1..]);
      BlankLineKey(letters, body[1..]);
      assert body == "\n" + body[1..];
    }
  }

  lemma {:induction false} BlankLineKey(letters: Letters, body: string)
    ensures LinesKey(letters, LinesOf("\n" + body)) == LinesKey(letters, LinesOf(body))
  {
    hide LinesOf, IsNoise, LinesKey;
    assert "" + "\n" + body == "\n" + body;
    LinesFirst("", body);
    assert StripCr("") == "" && LineKey(letters, "") == "";
    LinesKeyCons(letters, "", LinesOf(body));
  }
}
