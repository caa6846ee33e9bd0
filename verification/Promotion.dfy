/** The promotion run: reviewed candidates become active facts
    (`harness-capability/src/promotion.rs`). */
module Promotion {
  import opened Text
  import opened Terms
  import opened Frontmatter
  import opened PromotionKeys

  // ---------- one candidate ----------

  const CONFIDENCE_MIN := 0.70
  const MIN_BODY_CHARS := 12
  const IMPORTANCE_MIN := 0.5
  const PROMOTED_TAG := "promoted"
  const EXTENSION := ".md"

  datatype Reason = NoFrontMatter | NoSource | ShortBody | LowConfidence(confidence: real) | EmptyKey | Duplicate

  datatype Outcome = Outcome(id: string, reasons: seq<Reason>)

  function If<T>(c: bool, x: T): (r: seq<T>)
    ensures r == if c then [x] else []
  {
    if c then [x] else []
  }

  function JudgeCandidate(letters: Letters, fm: FrontMatter, body: string, existing: set<string>): seq<Reason> {
    var key := NormKey(letters, body);
    If(fm.sourceRefs == [], NoSource)
    + If(BodyChars(body) < MIN_BODY_CHARS, ShortBody)
    + If(fm.confidence < CONFIDENCE_MIN, LowConfidence(fm.confidence))
    + if key == "" then [EmptyKey] else If(key in existing, Duplicate)
  }

  /** A candidate is accepted exactly when it names a source, says at least twelve characters, is
      held with at least seventy percent confidence, and has a key that is new; whatever it lacks is
      a reason of its own. */
  lemma {:induction false} JudgeIff(letters: Letters, fm: FrontMatter, body: string, existing: set<string>)
    ensures JudgeCandidate(letters, fm, body, existing) == [] <==>
              && fm.sourceRefs != [] && BodyChars(body) >= 12 && fm.confidence >= 0.70
              && NormKey(letters, body) != "" && NormKey(letters, body) !in existing
    ensures NoSource in JudgeCandidate(letters, fm, body, existing) <==> fm.sourceRefs == []
    ensures ShortBody in JudgeCandidate(letters, fm, body, existing) <==> BodyChars(body) < 12
    ensures forall c :: LowConfidence(c) in JudgeCandidate(letters, fm, body, existing) <==> c == fm.confidence && c < 0.70
    ensures EmptyKey in JudgeCandidate(letters, fm, body, existing) <==> NormKey(letters, body) == ""
    ensures Duplicate in JudgeCandidate(letters, fm, body, existing) <==>
              NormKey(letters, body) != "" && NormKey(letters, body) in existing
    ensures NoFrontMatter !in JudgeCandidate(letters, fm, body, existing)
  {
    hide *;
    JudgeHas(letters, fm, body, existing);
    var reasons := JudgeCandidate(letters, fm, body, existing);
    assert LowConfidence(fm.confidence) in reasons <==> fm.confidence < 0.70;
    assert NoSource in reasons <==> fm.sourceRefs == [];
    assert ShortBody in reasons <==> BodyChars(body) < 12;
    assert EmptyKey in reasons <==> NormKey(letters, body) == "";
    assert Duplicate in reasons <==> NormKey(letters, body) != "" && NormKey(letters, body) in existing;
  }

  /** The reasons of a judgement, one by one. */
  lemma {:induction false} JudgeHas(letters: Letters, fm: FrontMatter, body: string, existing: set<string>)
    ensures var reasons, key := JudgeCandidate(letters, fm, body, existing), NormKey(letters, body);
            && (forall r :: r in reasons <==>
                  || (r == NoSource && fm.sourceRefs == [])
                  || (r == ShortBody && BodyChars(body) < 12)
                  || (r == LowConfidence(fm.confidence) && fm.confidence < 0.70)
                  || (r == EmptyKey && key == "")
                  || (r == Duplicate && key != "" && key in existing))
            && |reasons| <= 4
            && (reasons != [] ==> reasons[0] in reasons)
  {
    hide NormKey, BodyChars;
    var none, short := If(fm.sourceRefs == [], NoSource), If(BodyChars(body) < MIN_BODY_CHARS, ShortBody);
    var low := If(fm.confidence < CONFIDENCE_MIN, LowConfidence(fm.confidence));
    var key := NormKey(letters, body);
    var taken := if key == "" then [EmptyKey] else If(key in existing, Duplicate);
    assert forall r :: r in taken <==> (r == EmptyKey && key == "") || (r == Duplicate && key != "" && key in existing);
    FourParts(none, short, low, taken);
  }

  lemma {:induction false} FourParts(a: seq<Reason>, b: seq<Reason>, c: seq<Reason>, d: seq<Reason>)
    ensures forall r :: r in a + b + c + d <==> r in a || r in b || r in c || r in d
    ensures |a + b + c + d| == |a| + |b| + |c| + |d|
  {
  }

  /** Facts already known count for nothing but their keys. */
  lemma {:induction false} JudgeByKey(letters: Letters, fm: FrontMatter, body: string, existing: set<string>)
    ensures JudgeCandidate(letters, fm, body, existing) == [] <==>
            JudgeCandidate(letters, fm, body, {}) == [] && NormKey(letters, body) !in existing
  {
    hide NormKey, BodyChars;
  }

  function SanitizeId(raw: string): string {
    seq(|raw|, i requires 0 <= i < |raw| =>
      if IsWord(raw[i]) || raw[i] in ".-" then Lower(raw[i]) else '-')
  }

  /** A file name without its extension. */
  function Stem(name: string): string {
    if EndsWith(name, EXTENSION) then name[..|name| - |EXTENSION|] else name
  }

  function CandidateId(name: string, fm: FrontMatter): string {
    if fm.id == "" then SanitizeId(Stem(name)) else fm.id
  }

  function FactName(name: string, fm: FrontMatter): string {
    SanitizeId(CandidateId(name, fm)) + EXTENSION
  }

  function PromotedHead(fm: FrontMatter, date: string): FrontMatter {
    fm.(layer := L2,
        status := Active,
        updatedAt := date,
        importance := if fm.importance < IMPORTANCE_MIN then IMPORTANCE_MIN else fm.importance,
        tags := if PROMOTED_TAG in fm.tags then fm.tags else fm.tags + [PROMOTED_TAG])
  }

  // ---------- the run ----------

  datatype Env = Env(yaml: Yaml, letters: Letters, date: string)

  /** `facts/` and `review/` as maps from file names to texts. */
  datatype Dirs = Dirs(facts: map<string, string>, review: map<string, string>)

  datatype RunState = RunState(dirs: Dirs, existing: set<string>, outcomes: seq<Outcome>, promoted: seq<string>)

  function Parsed(env: Env, text: string): ParsedMarkdown {
    ParseMarkdown(env.yaml, text)
  }

  function PromotedText(env: Env, parsed: ParsedMarkdown): string
    requires parsed.frontMatter.Some?
  {
    RenderMarkdown(env.yaml, PromotedHead(parsed.frontMatter.value, env.date), PromotedBody(parsed.body, env.date))
  }

  function Consider(env: Env, s: RunState, name: string): RunState
    requires name in s.dirs.review
  {
    var parsed := Parsed(env, s.dirs.review[name]);
    match parsed.frontMatter
    case None => s.(outcomes := s.outcomes + [Outcome(SanitizeId(Stem(name)), [NoFrontMatter])])
    case Some(fm) =>
      var id := CandidateId(name, fm);
      var reasons := JudgeCandidate(env.letters, fm, parsed.body, s.existing);
      if reasons != [] then s.(outcomes := s.outcomes + [Outcome(id, reasons)])
      else
        RunState(
          Dirs(s.dirs.facts[FactName(name, fm) := PromotedText(env, parsed)], s.dirs.review - {name}),
          s.existing + {NormKey(env.letters, PromotedBody(parsed.body, env.date))},
          s.outcomes + [Outcome(id, [])],
          s.promoted + [FactName(name, fm)])
  }

  function ConsiderAll(env: Env, s: RunState, names: seq<string>): RunState
    requires (forall name :: name in names ==> name in s.dirs.review) && Ascending(names)
    decreases |names|
  {
    if names == [] then s
    else
      AscendingTail(names);
      ConsiderAll(env, Consider(env, s, names[0]), names[1..])
  }

  lemma {:induction false} AscendingTail(names: seq<string>)
    requires names != [] && Ascending(names)
    ensures Ascending(names[1..]) && names[0] !in names[1..] && forall n :: n in names[1..] ==> n in names
  {
    forall k | 0 < k < |names|
      ensures names[k] != names[0]
    {
      LessTotal(names[0], names[k]);
    }
  }

  predicate IsMd(name: string) {
    EndsWith(name, EXTENSION) && name != EXTENSION
  }

  ghost function KeysOfActive(env: Env, facts: map<string, string>): set<string> {
    set name | name in facts && IsMd(name) && IsActive(env, facts[name]) :: KeyOf(env, facts[name])
  }

  predicate IsActive(env: Env, text: string) {
    var fm := Parsed(env, text).frontMatter;
    fm.Some? && fm.value.status == Active
  }

  function KeyOf(env: Env, text: string): string {
    NormKey(env.letters, Parsed(env, text).body)
  }

  ghost predicate IsListing(dir: map<string, string>, names: seq<string>) {
    Ascending(names) && forall name :: name in names <==> name in dir && IsMd(name)
  }

  ghost function Started(env: Env, dirs: Dirs): RunState {
    RunState(dirs, KeysOfActive(env, dirs.facts), [], [])
  }

  ghost function Promote(env: Env, dirs: Dirs, names: seq<string>): RunState
    requires IsListing(dirs.review, names)
  {
    ConsiderAll(env, Started(env, dirs), names)
  }

  // ---------- the loops ----------

  /** A directory has one sorted listing. */
  lemma {:induction false} ListingUnique(dir: map<string, string>, a: seq<string>, b: seq<string>)
    requires IsListing(dir, a) && IsListing(dir, b)
    ensures a == b
  {
    hide IsMd;
    AscendingUnique(a, b);
  }

  method ListMd(dir: map<string, string>) returns (names: seq<string>)
    ensures IsListing(dir, names)
  {
    names := [];
    var left := dir.Keys;
    while left != {}
      invariant left <= dir.Keys && Ascending(names)
      invariant forall name :: name in names <==> name in dir && IsMd(name) && name !in left
      decreases left
    {
      var name :| name in left;
      left := left - {name};
      if IsMd(name) {
        InsertedAscends(names, name);
        InsertedHas(names, name);
        names := Inserted(names, name);
      }
    }
  }

  method ActiveKeys(env: Env, facts: map<string, string>) returns (existing: set<string>)
    ensures existing == KeysOfActive(env, facts)
  {
    hide IsActive, KeyOf, IsMd;
    existing := {};
    var left := facts.Keys;
    while left != {}
      invariant left <= facts.Keys
      invariant existing ==
                set name | name in facts && name !in left && IsMd(name) && IsActive(env, facts[name]) :: KeyOf(env, facts[name])
      decreases left
    {
      var name :| name in left;
      left := left - {name};
      if IsMd(name) && IsActive(env, facts[name]) {
        existing := existing + {KeyOf(env, facts[name])};
      }
    }
  }

  method PromoteReviewDir(env: Env, dirs: Dirs) returns (result: RunState)
    ensures exists names :: IsListing(dirs.review, names) && result == Promote(env, dirs, names)
  {
    hide JudgeCandidate, Consider, NormKey, KeysOfActive;
    var existing := ActiveKeys(env, dirs.facts);
    var all := ListMd(dirs.review);
    result := RunState(dirs, existing, [], []);
    for i := 0 to |all|
      invariant Ascending(all[i..]) && forall name :: name in all[i..] ==> name in result.dirs.review
      invariant ConsiderAll(env, result, all[i..]) == Promote(env, dirs, all)
    {
      assert all[i..][0] == all[i] && all[i..][1..] == all[i + 1..];
      AscendingTail(all[i..]);
      assert all[i] in all[i..];
      ConsiderKeepsOthers(env, result, all[i]);
      result := Consider(env, result, all[i]);
    }
  }

  lemma {:induction false} ConsiderKeepsOthers(env: Env, s: RunState, name: string)
    requires name in s.dirs.review
    ensures forall n :: n in s.dirs.review && n != name ==>
              n in Consider(env, s, name).dirs.review && Consider(env, s, name).dirs.review[n] == s.dirs.review[n]
  {
    hide JudgeCandidate, PromotedText, Parsed;
  }
}
