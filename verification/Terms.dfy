/** Text as search terms: `tokenize` of `harness-capability/src/inverted.rs`. */
module Terms {
  import opened Text

  // ---------- the order of strings ----------

  /** Code point by code point, which is also the byte order of UTF-8. */
  predicate Less(a: string, b: string) {
    if a == [] || b == [] then a == [] && b != []
    else a[0] < b[0] || (a[0] == b[0] && Less(a[1..], b[1..]))
  }

  lemma {:induction false} LessTotal(a: string, b: string)
    ensures !(Less(a, b) && Less(b, a))
    ensures Less(a, b) || Less(b, a) <==> a != b
  {
    if a != [] && b != [] {
      assert a == [a[0]] + a[1..] && b == [b[0]] + b[1..];
      LessTotal(a[1..], b[1..]);
    }
  }

  lemma {:induction false} LessTransitive(a: string, b: string, c: string)
    requires Less(a, b) && Less(b, c)
    ensures Less(a, c)
  {
    if a != [] && a[0] == b[0] == c[0] {
      LessTransitive(a[1..], b[1..], c[1..]);
    }
  }

  predicate Ascending(terms: seq<string>) {
    forall i, j :: 0 <= i < j < |terms| ==> Less(terms[i], terms[j])
  }

  // ---------- what the terms of a text are ----------

  predicate IsCjk(c: char) {
    || '\U{3040}' <= c <= '\U{30FF}' || '\U{3400}' <= c <= '\U{4DBF}'
    || '\U{4E00}' <= c <= '\U{9FFF}' || '\U{AC00}' <= c <= '\U{D7AF}'
  }

  predicate IsWord(c: char) {
    'a' <= c <= 'z' || 'A' <= c <= 'Z' || '0' <= c <= '9' || c == '_'
  }

  predicate InWord(text: string, k: int) {
    0 <= k < |text| && IsWord(text[k])
  }

  /** A longest stretch of word characters. */
  predicate WordAt(text: string, a: int, b: int) {
    && 0 <= a < b <= |text|
    && (forall k :: a <= k < b ==> InWord(text, k))
    && !InWord(text, a - 1) && !InWord(text, b)
  }

  predicate CjkAt(text: string, a: int) {
    0 <= a < |text| && IsCjk(text[a])
  }

  predicate PairAt(text: string, a: int) {
    CjkAt(text, a) && CjkAt(text, a + 1)
  }

  /** Words that end at or before `upto`, in lower case. */
  ghost function Words(text: string, upto: int): set<string> {
    set a, b | 0 <= a < b <= |text| && WordAt(text, a, b) && b <= upto :: LowerAscii(text[a..b])
  }

  /** Characters of other scripts in front of `upto`. */
  ghost function Singles(text: string, upto: int): set<string> {
    set a | 0 <= a < |text| && CjkAt(text, a) && a < upto :: [text[a]]
  }

  /** Two such characters in a row, both in front of `upto`. */
  ghost function Pairs(text: string, upto: int): set<string> {
    set a | 0 <= a < |text| && PairAt(text, a) && a + 1 < upto :: text[a..a + 2]
  }

  /** Whole words in lower case, and of other scripts each character and each adjacent pair. */
  ghost function TermsOf(text: string): set<string> {
    Words(text, |text|) + Singles(text, |text|) + Pairs(text, |text|)
  }

  // ---------- the scan ----------

  function Elements(terms: seq<string>): set<string> {
    set t | t in terms
  }

  lemma {:induction false} ElementsPush(terms: seq<string>, t: string)
    ensures Elements(terms + [t]) == Elements(terms) + {t}
  {
  }

  lemma {:induction false} WordsSame(text: string, i: int)
    requires 0 <= i < |text| && !IsWord(text[i])
    ensures Words(text, i + 1) == Words(text, i)
  {
    forall a, b | WordAt(text, a, b) && b <= i + 1
      ensures b <= i
    {
      assert InWord(text, b - 1);
    }
  }

  /** The open word is the only one that ends behind its start. */
  lemma {:induction false} WordsClose(text: string, w: int, i: int)
    requires WordAt(text, w, i)
    ensures Words(text, i) == Words(text, w) + {LowerAscii(text[w..i])}
  {
    forall a, b | WordAt(text, a, b) && w < b <= i
      ensures a == w && b == i
    {
      assert w <= b < i ==> InWord(text, b);
      assert a <= w - 1 < b ==> InWord(text, w - 1);
      assert w <= a - 1 < i ==> InWord(text, a - 1);
    }
  }

  lemma {:induction false} CjkSame(text: string, i: int)
    requires 0 <= i < |text| && !IsCjk(text[i])
    ensures Singles(text, i + 1) == Singles(text, i) && Pairs(text, i + 1) == Pairs(text, i)
  {
  }

  lemma {:induction false} SinglesAdd(text: string, c: nat, i: nat)
    requires c <= i <= |text|
    ensures Singles(text, i) == Singles(text, c) + Singles(text[c..i], i - c)
  {
    var run := text[c..i];
    forall t
      ensures t in Singles(text, i) <==> t in Singles(text, c) || t in Singles(run, i - c)
    {
      if t in Singles(text, i) {
        var a :| 0 <= a < |text| && CjkAt(text, a) && a < i && t == [text[a]];
        assert a >= c ==> CjkAt(run, a - c) && run[a - c] == text[a];
      }
      if t in Singles(run, i - c) {
        var a :| 0 <= a < |run| && CjkAt(run, a) && t == [run[a]];
        assert CjkAt(text, c + a);
      }
    }
  }

  lemma {:induction false} SliceInside(s: string, c: nat, i: nat, a: nat, b: nat)
    requires c <= a <= b <= i <= |s|
    ensures s[c..i][a - c..b - c] == s[a..b]
  {
    var inner := s[c..i][a - c..b - c];
    assert |inner| == b - a;
    forall k | 0 <= k < b - a
      ensures inner[k] == s[a..b][k]
    {
      assert inner[k] == s[c..i][a - c + k];
    }
  }

  lemma {:induction false} PairsAdd(text: string, c: nat, i: nat)
    requires c <= i <= |text| && (c > 0 ==> !IsCjk(text[c - 1]))
    ensures Pairs(text, i) == Pairs(text, c) + Pairs(text[c..i], i - c)
  {
    hide IsCjk;
    var run := text[c..i];
    forall a | 0 <= a < |text| && PairAt(text, a) && a + 1 < i
      ensures text[a..a + 2] in Pairs(text, c) + Pairs(run, i - c)
    {
      if a >= c {
        SliceInside(text, c, i, a, a + 2);
        assert PairAt(run, a - c) && run[a - c..a - c + 2] == text[a..a + 2];
      } else {
        assert a + 1 < c;
      }
    }
    forall a | 0 <= a < |run| && PairAt(run, a) && a + 1 < i - c
      ensures run[a..a + 2] in Pairs(text, i)
    {
      SliceInside(text, c, i, c + a, c + a + 2);
      assert PairAt(text, c + a) && text[c + a..c + a + 2] == run[a..a + 2];
    }
  }

  method FlushWord(word: string, terms: seq<string>) returns (out: seq<string>)
    ensures Elements(out) == Elements(terms) + if word == "" then {} else {word}
  {
    out := terms;
    if word != "" {
      ElementsPush(terms, word);
      out := terms + [word];
    }
  }

  lemma {:induction false} SinglesStep(text: string, k: int)
    requires CjkAt(text, k)
    ensures Singles(text, k + 1) == Singles(text, k) + {[text[k]]}
  {
  }

  lemma {:induction false} PairsStep(text: string, k: int)
    requires PairAt(text, k)
    ensures Pairs(text, k + 2) == Pairs(text, k + 1) + {text[k..k + 2]}
  {
  }

  method FlushCjk(cjk: string, terms: seq<string>) returns (out: seq<string>)
    requires forall k :: 0 <= k < |cjk| ==> IsCjk(cjk[k])
    ensures Elements(out) == Elements(terms) + Singles(cjk, |cjk|) + Pairs(cjk, |cjk|)
  {
    out := terms;
    for k := 0 to |cjk|
      invariant Elements(out) == Elements(terms) + Singles(cjk, k)
    {
      SinglesStep(cjk, k);
      ElementsPush(out, [cjk[k]]);
      out := out + [[cjk[k]]];
    }
    var k := 0;
    while k + 1 < |cjk|
      invariant 0 <= k && (k == 0 || k + 1 <= |cjk|)
      invariant Elements(out) == Elements(terms) + Singles(cjk, |cjk|) + Pairs(cjk, k + 1)
    {
      assert PairAt(cjk, k);
      PairsStep(cjk, k);
      ElementsPush(out, cjk[k..k + 2]);
      out := out + [cjk[k..k + 2]];
      k := k + 1;
    }
    assert Pairs(cjk, |cjk|) == Pairs(cjk, k + 1);
  }

  // ---------- sorting ----------

  /** Inserts into an ascending list, once. */
  function Inserted(terms: seq<string>, t: string): seq<string> {
    if terms == [] then [t]
    else if terms[0] == t then terms
    else if Less(t, terms[0]) then [t] + terms
    else [terms[0]] + Inserted(terms[1..], t)
  }

  /** `sort` and `dedup` */
  function SortDedup(terms: seq<string>): seq<string> {
    if terms == [] then [] else Inserted(SortDedup(terms[1..]), terms[0])
  }

  lemma {:induction false} InsertedHas(terms: seq<string>, t: string)
    ensures forall x :: x in Inserted(terms, t) <==> x in terms || x == t
  {
    if terms != [] {
      InsertedHas(terms[1..], t);
      assert forall x :: x in terms <==> x == terms[0] || x in terms[1..];
    }
  }

  lemma {:induction false} SortDedupHas(terms: seq<string>)
    ensures Elements(SortDedup(terms)) == Elements(terms)
  {
    if terms != [] {
      SortDedupHas(terms[1..]);
      InsertedHas(SortDedup(terms[1..]), terms[0]);
      forall x
        ensures x in SortDedup(terms) <==> x in terms
      {
        assert x in SortDedup(terms[1..]) <==> x in Elements(SortDedup(terms[1..]));
        assert x in terms[1..] <==> x in Elements(terms[1..]);
      }
    }
  }

  lemma {:induction false} InsertedAscends(terms: seq<string>, t: string)
    requires Ascending(terms)
    ensures Ascending(Inserted(terms, t))
  {
    if terms != [] && terms[0] != t {
      LessTotal(t, terms[0]);
      if Less(t, terms[0]) {
        forall j | 0 <= j < |terms|
          ensures Less(t, terms[j])
        {
          if j > 0 {
            LessTransitive(t, terms[0], terms[j]);
          }
        }
      } else {
        InsertedAscends(terms[1..], t);
        var r := Inserted(terms[1..], t);
        forall j | 0 <= j < |r|
          ensures Less(terms[0], r[j])
        {
          InsertedHas(terms[1..], t);
          assert r[j] in r;
        }
      }
    }
  }

  lemma {:induction false} SortDedupAscends(terms: seq<string>)
    ensures Ascending(SortDedup(terms))
  {
    if terms != [] {
      SortDedupAscends(terms[1..]);
      InsertedAscends(SortDedup(terms[1..]), terms[0]);
    }
  }

  /** An ascending list is determined by its elements. */
  lemma {:induction false} AscendingUnique(a: seq<string>, b: seq<string>)
    requires Ascending(a) && Ascending(b) && forall x :: x in a <==> x in b
    ensures a == b
  {
    HeadIsLeast(a);
    HeadIsLeast(b);
    if a != [] {
      assert a[0] in b && b[0] in a;
      LessTotal(a[0], b[0]);
      assert a[0] == b[0];
      forall x
        ensures x in a[1..] <==> x in b[1..]
      {
        assert x in a <==> x == a[0] || x in a[1..];
        assert x in b <==> x == b[0] || x in b[1..];
      }
      AscendingUnique(a[1..], b[1..]);
    }
  }

  lemma {:induction false} HeadIsLeast(a: seq<string>)
    requires Ascending(a)
    ensures a == [] || (a[0] in a && a[0] !in a[1..] && forall x :: x in a && x != a[0] ==> Less(a[0], x))
  {
    if a != [] {
      LessTotal(a[0], a[0]);
    }
  }

  // ---------- the whole function ----------

  /** `word` and `cjk` hold the runs that reach up to `i`. */
  ghost predicate Open(text: string, i: int, word: string, cjk: string) {
    OpenWord(text, i, word) && OpenCjk(text, i, cjk)
  }

  ghost predicate OpenWord(text: string, i: int, word: string) {
    && |word| <= i <= |text| && word == LowerAscii(text[i - |word|..i])
    && (forall k :: i - |word| <= k < i ==> IsWord(text[k]))
    && (i > |word| ==> !IsWord(text[i - |word| - 1]))
  }

  ghost predicate OpenCjk(text: string, i: int, cjk: string) {
    && |cjk| <= i <= |text| && cjk == text[i - |cjk|..i]
    && (forall k :: i - |cjk| <= k < i ==> IsCjk(text[k]))
    && (i > |cjk| ==> !IsCjk(text[i - |cjk| - 1]))
  }

  ghost predicate Collected(text: string, w: int, c: int, terms: seq<string>) {
    Elements(terms) == Words(text, w) + Singles(text, c) + Pairs(text, c)
  }

  lemma {:induction false} NothingYet(text: string)
    ensures Collected(text, 0, 0, []) && Open(text, 0, "", "")
  {
    assert Elements([]) == {};
    assert Words(text, 0) == {} && Singles(text, 0) == {} && Pairs(text, 0) == {};
  }

  lemma {:induction false} CloseWord(text: string, i: nat, word: string)
    requires OpenWord(text, i, word) && (i < |text| ==> !IsWord(text[i]))
    ensures Words(text, i) == Words(text, i - |word|) + if word == "" then {} else {word}
  {
    hide Words, LowerAscii, IsWord;
    if word != "" {
      assert forall k :: i - |word| <= k < i ==> InWord(text, k);
      WordsClose(text, i - |word|, i);
    }
  }

  /** A run that the next character does not continue has ended. */
  method EndWord(text: string, i: nat, word: string, ghost cjk: string, terms: seq<string>) returns (out: seq<string>)
    requires Open(text, i, word, cjk) && Collected(text, i - |word|, i - |cjk|, terms)
    requires i < |text| ==> !IsWord(text[i])
    ensures Collected(text, i, i - |cjk|, out)
  {
    hide Words, Singles, Pairs, LowerAscii, OpenWord, OpenCjk;
    CloseWord(text, i, word);
    out := FlushWord(word, terms);
  }

  method EndCjk(text: string, i: nat, ghost word: string, w: int, cjk: string, terms: seq<string>)
    returns (out: seq<string>)
    requires Open(text, i, word, cjk) && Collected(text, w, i - |cjk|, terms)
    ensures Collected(text, w, i, out)
  {
    hide Words, Singles, Pairs, LowerAscii;
    SinglesAdd(text, i - |cjk|, i);
    PairsAdd(text, i - |cjk|, i);
    out := FlushCjk(cjk, terms);
  }

  /** What is collected up to a character that belongs to neither kind reaches behind it. */
  lemma {:induction false} CollectedStep(text: string, i: int, w: int, c: int, terms: seq<string>)
    requires 0 <= i < |text|
    ensures Collected(text, i, c, terms) && !IsWord(text[i]) ==> Collected(text, i + 1, c, terms)
    ensures Collected(text, w, i, terms) && !IsCjk(text[i]) ==> Collected(text, w, i + 1, terms)
  {
    hide Words, Singles, Pairs;
    if !IsWord(text[i]) {
      WordsSame(text, i);
    }
    if !IsCjk(text[i]) {
      CjkSame(text, i);
    }
  }

  lemma {:induction false} OneKind(c: char)
    ensures !(IsWord(c) && IsCjk(c))
  {
  }

  lemma {:induction false} LowerPush(text: string, a: nat, i: nat)
    requires a <= i < |text|
    ensures LowerAscii(text[a..i + 1]) == LowerAscii(text[a..i]) + [Lower(text[i])]
    ensures LowerAscii(text[i + 1..i + 1]) == ""
  {
  }

  lemma {:induction false} OpenWordStep(text: string, i: int, word: string)
    requires OpenWord(text, i, word) && i < |text|
    ensures OpenWord(text, i + 1, if IsWord(text[i]) then word + [Lower(text[i])] else "")
  {
    hide LowerAscii, IsWord;
    LowerPush(text, i, i);
    LowerPush(text, i - |word|, i);
  }

  lemma {:induction false} OpenCjkStep(text: string, i: int, cjk: string)
    requires OpenCjk(text, i, cjk) && i < |text|
    ensures OpenCjk(text, i + 1, if IsCjk(text[i]) then cjk + [text[i]] else "")
  {
    hide IsCjk;
    assert text[i - |cjk|..i + 1] == cjk + [text[i]];
  }

  /** How the next character continues or breaks the open runs. */
  lemma {:induction false} OpenStep(text: string, i: int, word: string, cjk: string)
    requires Open(text, i, word, cjk) && i < |text|
    ensures IsWord(text[i]) ==> Open(text, i + 1, word + [Lower(text[i])], "")
    ensures IsCjk(text[i]) ==> Open(text, i + 1, "", cjk + [text[i]])
    ensures !IsWord(text[i]) && !IsCjk(text[i]) ==> Open(text, i + 1, "", "")
  {
    hide LowerAscii, IsWord, IsCjk;
    OneKind(text[i]);
    OpenWordStep(text, i, word);
    OpenCjkStep(text, i, cjk);
  }

  /** One pass over the text yields its terms, each once and in order. */
  method Tokenize(text: string) returns (terms: seq<string>)
    ensures Elements(terms) == TermsOf(text) && Ascending(terms)
  {
    hide Open, Collected, Elements;
    terms := [];
    var word, cjk := "", "";
    NothingYet(text);
    for i := 0 to |text|
      invariant |word| <= i && |cjk| <= i
      invariant Open(text, i, word, cjk) && Collected(text, i - |word|, i - |cjk|, terms)
    {
      var ch := text[i];
      OpenStep(text, i, word, cjk);
      if IsWord(ch) {
        terms := EndCjk(text, i, word, i - |word|, cjk, terms);
        CollectedStep(text, i, i - |word|, i, terms);
        word, cjk := word + [Lower(ch)], "";
      } else if IsCjk(ch) {
        terms := EndWord(text, i, word, cjk, terms);
        CollectedStep(text, i, i, i - |cjk|, terms);
        word, cjk := "", cjk + [ch];
      } else {
        terms := EndWord(text, i, word, cjk, terms);
        terms := EndCjk(text, i, word, i, cjk, terms);
        CollectedStep(text, i, i, i, terms);
        CollectedStep(text, i, i + 1, i, terms);
        word, cjk := "", "";
      }
    }
    terms := EndWord(text, |text|, word, cjk, terms);
    terms := EndCjk(text, |text|, word, |text|, cjk, terms);
    AllCollected(text, terms);
    SortDedupAscends(terms);
    SortDedupHas(terms);
    terms := SortDedup(terms);
  }

  lemma {:induction false} AllCollected(text: string, terms: seq<string>)
    requires Collected(text, |text|, |text|, terms)
    ensures Elements(terms) == TermsOf(text)
  {
  }

  // ---------- texts joined by a separator ----------

  predicate Separator(c: char) {
    !IsWord(c) && !IsCjk(c)
  }

  function Joined(a: string, c: char, b: string): string {
    a + [c] + b
  }

  /** Where a stretch of the joined text lies in its parts. */
  lemma {:induction false} WordAtJoined(a: string, c: char, b: string, x: int, y: int)
    requires Separator(c)
    ensures var t := Joined(a, c, b); var n := |a| + 1;
            && (WordAt(t, x, y) <==> WordAt(a, x, y) || WordAt(b, x - n, y - n))
            && (WordAt(a, x, y) ==> t[x..y] == a[x..y])
            && (WordAt(b, x - n, y - n) ==> t[x..y] == b[x - n..y - n])
  {
    hide IsWord, IsCjk;
    var t, n := Joined(a, c, b), |a| + 1;
    assert !InWord(t, |a|) && !InWord(a, |a|) && !InWord(b, -1) && !InWord(a, -1);
    assert forall k :: k < |a| ==> (InWord(t, k) <==> InWord(a, k));
    forall k | n <= k
      ensures InWord(t, k) <==> InWord(b, k - n)
    {
    }
    if WordAt(b, x - n, y - n) {
      forall k | x <= k < y
        ensures InWord(t, k)
      {
        assert InWord(b, k - n);
      }
    }
    if WordAt(t, x, y) {
      assert y <= |a| || x >= n;
      if x >= n {
        forall k | x - n <= k < y - n
          ensures InWord(b, k)
        {
          assert InWord(t, k + n);
        }
      }
    }
  }

  lemma {:induction false} WordsJoined(a: string, c: char, b: string)
    requires Separator(c)
    ensures var t := Joined(a, c, b); Words(t, |t|) == Words(a, |a|) + Words(b, |b|)
  {
    hide WordAt, Separator, Joined, LowerAscii;
    var t, n := Joined(a, c, b), |a| + 1;
    JoinedLength(a, c, b);
    forall x, y | 0 <= x < y <= |t| && WordAt(t, x, y)
      ensures LowerAscii(t[x..y]) in Words(a, |a|) + Words(b, |b|)
    {
      WordAtJoined(a, c, b, x, y);
      WordAtBounds(a, x, y);
      WordAtBounds(b, x - n, y - n);
    }
    forall x, y | 0 <= x < y <= |a| && WordAt(a, x, y)
      ensures LowerAscii(a[x..y]) in Words(t, |t|)
    {
      WordAtJoined(a, c, b, x, y);
    }
    forall x, y | 0 <= x < y <= |b| && WordAt(b, x, y)
      ensures LowerAscii(b[x..y]) in Words(t, |t|)
    {
      WordAtJoined(a, c, b, x + n, y + n);
      assert b[x + n - n..y + n - n] == b[x..y];
    }
  }

  lemma {:induction false} WordAtBounds(text: string, x: int, y: int)
    ensures WordAt(text, x, y) ==> 0 <= x < y <= |text|
  {
  }

  lemma {:induction false} JoinedLength(a: string, c: char, b: string)
    ensures |Joined(a, c, b)| == |a| + 1 + |b|
  {
  }

  lemma {:induction false} CjkJoined(a: string, c: char, b: string)
    requires Separator(c)
    ensures var t := Joined(a, c, b);
            && Singles(t, |t|) == Singles(a, |a|) + Singles(b, |b|)
            && Pairs(t, |t|) == Pairs(a, |a|) + Pairs(b, |b|)
  {
    var t, n := Joined(a, c, b), |a| + 1;
    assert t[n..|t|] == b && t[|a|..n] == [c];
    assert !CjkAt(t, |a|);
    SinglesAdd(t, n, |t|);
    PairsAdd(t, n, |t|);
    CjkSame(t, |a|);
    assert t[0..|a|] == a;
    SinglesAdd(t, 0, |a|);
    PairsAdd(t, 0, |a|);
    assert Singles(t, 0) == {} && Pairs(t, 0) == {};
  }

  /** Joining texts by a blank or any other separator joins their terms and makes no new one. */
  lemma {:induction false} TermsJoined(a: string, c: char, b: string)
    requires Separator(c)
    ensures TermsOf(a + [c] + b) == TermsOf(a) + TermsOf(b)
  {
    hide Words, Singles, Pairs;
    WordsJoined(a, c, b);
    CjkJoined(a, c, b);
  }
}
