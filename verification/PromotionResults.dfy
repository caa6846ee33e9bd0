/** What a promotion run does to the directories, to the keys, and when it is repeated. */
module PromotionResults {
  import opened Options
  import opened Text
  import opened Lines
  import opened Terms
  import opened Calendar
  import opened Frontmatter
  import opened PromotionKeys
  import opened Promotion

  // ---------- one candidate ----------

  predicate HasHead(env: Env, text: string) {
    Parsed(env, text).frontMatter.Some?
  }

  predicate Accepted(env: Env, text: string, existing: set<string>) {
    var parsed := Parsed(env, text);
    parsed.frontMatter.Some? && JudgeCandidate(env.letters, parsed.frontMatter.value, parsed.body, existing) == []
  }

  /** Would be promoted if no fact were known. */
  predicate Eligible(env: Env, text: string) {
    Accepted(env, text, {})
  }

  /** The fact file of a candidate. */
  function Target(env: Env, name: string, text: string): string {
    var parsed := Parsed(env, text);
    if parsed.frontMatter.Some? then FactName(name, parsed.frontMatter.value) else ""
  }

  /** What is written there. */
  function NewText(env: Env, text: string): string {
    var parsed := Parsed(env, text);
    if parsed.frontMatter.Some? then PromotedText(env, parsed) else ""
  }

  /** The date is one line, and a carriage return is no letter. */
  predicate EnvOk(env: Env) {
    '\n' !in env.date && !env.letters.alnum('\r')
  }

  /** Every date the harness prints will do. */
  lemma {:induction false} TodayIsOk(env: Env, secs: int)
    requires !env.letters.alnum('\r')
    ensures EnvOk(env.(date := DateFromSecs(secs)))
  {
    DateTextOneLine(CivilFromDays(secs / 86_400));
  }

  lemma {:induction false} AcceptedIs(env: Env, text: string, existing: set<string>)
    ensures Accepted(env, text, existing) <==> Eligible(env, text) && KeyOf(env, text) !in existing
    ensures Accepted(env, text, existing) ==> HasHead(env, text)
  {
    hide JudgeCandidate, NormKey, Parsed;
    var parsed := Parsed(env, text);
    if parsed.frontMatter.Some? {
      JudgeByKey(env.letters, parsed.frontMatter.value, parsed.body, existing);
    }
  }

  lemma {:induction false} ConsiderSteps(env: Env, s: RunState, name: string)
    requires name in s.dirs.review && EnvOk(env)
    ensures var text, t := s.dirs.review[name], Consider(env, s, name);
            if Eligible(env, text) && KeyOf(env, text) !in s.existing then
              && t.dirs.facts == s.dirs.facts[Target(env, name, text) := NewText(env, text)]
              && t.dirs.review == s.dirs.review - {name}
              && t.existing == s.existing + {KeyOf(env, text)}
              && t.promoted == s.promoted + [Target(env, name, text)]
            else t.dirs == s.dirs && t.existing == s.existing && t.promoted == s.promoted
  {
    hide NormKey, PromotedBody, PromotedText, Parsed, JudgeCandidate, FactName, Eligible;
    var parsed := Parsed(env, s.dirs.review[name]);
    PromotedKeepsKey(env.letters, parsed.body, env.date);
    AcceptedIs(env, s.dirs.review[name], s.existing);
  }

  // ---------- which candidates are promoted ----------

  ghost predicate AllIn(names: seq<string>, review: map<string, string>) {
    forall name :: name in names ==> name in review
  }

  /** The first eligible candidate with a key that no fact has. */
  ghost predicate Chosen(env: Env, review: map<string, string>, existing: set<string>, names: seq<string>, i: int)
    requires AllIn(names, review)
  {
    && 0 <= i < |names|
    && Eligible(env, review[names[i]])
    && KeyOf(env, review[names[i]]) !in existing
    && forall j :: 0 <= j < i && Eligible(env, review[names[j]]) ==>
         KeyOf(env, review[names[j]]) != KeyOf(env, review[names[i]])
  }

  /** What a chosen candidate leaves under `f`. */
  ghost predicate Writes(env: Env, review: map<string, string>, existing: set<string>, names: seq<string>, i: int,
                         f: string)
    requires AllIn(names, review)
  {
    Chosen(env, review, existing, names, i) && f == Target(env, names[i], review[names[i]])
  }

  /** The state after a run, in terms of the state before it. */
  ghost predicate RunIs(env: Env, s: RunState, r: RunState, names: seq<string>)
    requires AllIn(names, s.dirs.review)
  {
    && ReviewIs(env, s, r, names)
    && (forall k :: k in r.existing <==> k in s.existing || NewKey(env, s.dirs.review, s.existing, names, k))
    && (forall f :: FileIs(env, s, r, names, f))
    && CountIs(env, s, r, names)
  }

  /** Exactly the chosen candidates have left the review directory. */
  ghost predicate ReviewIs(env: Env, s: RunState, r: RunState, names: seq<string>)
    requires AllIn(names, s.dirs.review)
  {
    var review := s.dirs.review;
    && (forall n :: n in r.dirs.review ==> n in review && r.dirs.review[n] == review[n])
    && (forall n :: n in review && n !in names ==> n in r.dirs.review)
    && (forall i :: 0 <= i < |names| ==> (names[i] in r.dirs.review <==> !Chosen(env, review, s.existing, names, i)))
  }

  /** Something is reported as promoted exactly when a candidate is chosen. */
  ghost predicate CountIs(env: Env, s: RunState, r: RunState, names: seq<string>)
    requires AllIn(names, s.dirs.review)
  {
    && |r.promoted| >= |s.promoted|
    && (|r.promoted| > |s.promoted| <==> exists i :: Chosen(env, s.dirs.review, s.existing, names, i))
    && ((forall i :: !Chosen(env, s.dirs.review, s.existing, names, i)) ==> r.promoted == s.promoted)
  }

  ghost predicate NewKey(env: Env, review: map<string, string>, existing: set<string>, names: seq<string>, k: string)
    requires AllIn(names, review)
  {
    exists i :: Chosen(env, review, existing, names, i) && k == KeyOf(env, review[names[i]])
  }

  /** A fact file is as before, or holds what a chosen candidate wrote. */
  ghost predicate FileIs(env: Env, s: RunState, r: RunState, names: seq<string>, f: string)
    requires AllIn(names, s.dirs.review)
  {
    || (exists i :: Writes(env, s.dirs.review, s.existing, names, i, f)
          && f in r.dirs.facts && r.dirs.facts[f] == NewText(env, s.dirs.review[names[i]]))
    || ((forall i :: !Writes(env, s.dirs.review, s.existing, names, i, f))
        && (f in r.dirs.facts <==> f in s.dirs.facts)
        && (f in s.dirs.facts ==> r.dirs.facts[f] == s.dirs.facts[f]))
  }

  /** Being chosen is the same seen from one step later. */
  lemma {:induction false} ChosenLater(env: Env, s: RunState, t: RunState, names: seq<string>, i: int)
    requires EnvOk(env) && names != [] && Ascending(names) && AllIn(names, s.dirs.review)
    requires t == Consider(env, s, names[0]) && AllIn(names[1..], t.dirs.review)
    ensures Chosen(env, t.dirs.review, t.existing, names[1..], i)
            <==> i >= 0 && Chosen(env, s.dirs.review, s.existing, names, i + 1)
  {
    hide Consider, Eligible, KeyOf, Target, NewText;
    AscendingTail(names);
    ConsiderSteps(env, s, names[0]);
    var rest := names[1..];
    assert forall j :: 0 <= j < |rest| ==> rest[j] == names[j + 1] && rest[j] in rest;
    assert forall j :: 0 <= j < |rest| ==> t.dirs.review[rest[j]] == s.dirs.review[names[j + 1]];
    if i >= 0 && Chosen(env, s.dirs.review, s.existing, names, i + 1) {
      assert Eligible(env, s.dirs.review[names[0]]) ==>
               KeyOf(env, s.dirs.review[names[0]]) != KeyOf(env, s.dirs.review[names[i + 1]]);
    }
    if Chosen(env, t.dirs.review, t.existing, rest, i) {
      forall j | 0 <= j < i + 1 && Eligible(env, s.dirs.review[names[j]])
        ensures KeyOf(env, s.dirs.review[names[j]]) != KeyOf(env, s.dirs.review[names[i + 1]])
      {
        if j > 0 {
          assert Eligible(env, t.dirs.review[rest[j - 1]]);
        }
      }
    }
  }

  /** One step in front of a run that is understood. */
  ghost predicate StepThen(env: Env, s: RunState, t: RunState, names: seq<string>) {
    && EnvOk(env) && names != [] && Ascending(names) && AllIn(names, s.dirs.review)
    && t == Consider(env, s, names[0])
  }

  /** Being chosen first is being eligible under a new key. */
  lemma {:induction false} StepMeans(env: Env, s: RunState, t: RunState, names: seq<string>)
    requires StepThen(env, s, t, names)
    ensures names != [] && AllIn(names, s.dirs.review) && AllIn(names[1..], t.dirs.review)
    ensures names[0] !in names[1..] && forall n :: n in names <==> n == names[0] || n in names[1..]
    ensures var name, text := names[0], s.dirs.review[names[0]];
            if Chosen(env, s.dirs.review, s.existing, names, 0) then
              && t.dirs.facts == s.dirs.facts[Target(env, name, text) := NewText(env, text)]
              && t.dirs.review == s.dirs.review - {name}
              && t.existing == s.existing + {KeyOf(env, text)}
              && |t.promoted| == |s.promoted| + 1
            else t.dirs == s.dirs && t.existing == s.existing && t.promoted == s.promoted
  {
    hide Consider, Eligible, KeyOf, Target, NewText;
    AscendingTail(names);
    ConsiderSteps(env, s, names[0]);
    assert names == [names[0]] + names[1..];
  }

  lemma {:induction false} ChosenBehind(env: Env, s: RunState, t: RunState, names: seq<string>)
    requires StepThen(env, s, t, names) && AllIn(names, s.dirs.review) && AllIn(names[1..], t.dirs.review)
    ensures forall i :: Chosen(env, t.dirs.review, t.existing, names[1..], i)
              <==> i >= 0 && Chosen(env, s.dirs.review, s.existing, names, i + 1)
    ensures forall i :: Chosen(env, s.dirs.review, s.existing, names, i) && i != 0 ==>
              i > 0 && Chosen(env, t.dirs.review, t.existing, names[1..], i - 1)
  {
    hide Consider, Chosen;
    forall i
      ensures Chosen(env, t.dirs.review, t.existing, names[1..], i)
              <==> i >= 0 && Chosen(env, s.dirs.review, s.existing, names, i + 1)
    {
      ChosenLater(env, s, t, names, i);
    }
    forall i | Chosen(env, s.dirs.review, s.existing, names, i) && i != 0
      ensures i > 0 && Chosen(env, t.dirs.review, t.existing, names[1..], i - 1)
    {
      ChosenBounds(env, s.dirs.review, s.existing, names);
      ChosenLater(env, s, t, names, i - 1);
    }
  }

  lemma {:induction false} ChosenBounds(env: Env, review: map<string, string>, existing: set<string>, names: seq<string>)
    requires AllIn(names, review)
    ensures forall i :: Chosen(env, review, existing, names, i) ==> 0 <= i < |names| && names[i] in review
  {
  }

  lemma {:induction false} ReviewStep(env: Env, s: RunState, t: RunState, r: RunState, names: seq<string>)
    requires StepThen(env, s, t, names) && AllIn(names, s.dirs.review) && AllIn(names[1..], t.dirs.review)
    requires ReviewIs(env, t, r, names[1..])
    ensures ReviewIs(env, s, r, names)
  {
    hide Consider, Chosen, Target, NewText, KeyOf;
    StepMeans(env, s, t, names);
    ChosenBehind(env, s, t, names);
    forall i | 0 <= i < |names|
      ensures names[i] in r.dirs.review <==> !Chosen(env, s.dirs.review, s.existing, names, i)
    {
      if i > 0 {
        assert names[1..][i - 1] == names[i];
        assert Chosen(env, t.dirs.review, t.existing, names[1..], i - 1)
            <==> Chosen(env, s.dirs.review, s.existing, names, i - 1 + 1);
      }
    }
  }

  lemma {:induction false} KeysStep(env: Env, s: RunState, t: RunState, r: RunState, names: seq<string>, k: string)
    requires StepThen(env, s, t, names) && AllIn(names, s.dirs.review) && AllIn(names[1..], t.dirs.review)
    requires k in r.existing <==> k in t.existing || NewKey(env, t.dirs.review, t.existing, names[1..], k)
    ensures k in r.existing <==> k in s.existing || NewKey(env, s.dirs.review, s.existing, names, k)
  {
    hide Consider, Chosen, Target, NewText, KeyOf;
    StepMeans(env, s, t, names);
    ChosenBehind(env, s, t, names);
    SameTexts(env, s, t, names);
    var rest := names[1..];
    ChosenBounds(env, s.dirs.review, s.existing, names);
    ChosenBounds(env, t.dirs.review, t.existing, rest);
    if NewKey(env, t.dirs.review, t.existing, rest, k) {
      var i :| Chosen(env, t.dirs.review, t.existing, rest, i) && k == KeyOf(env, t.dirs.review[rest[i]]);
      assert Chosen(env, s.dirs.review, s.existing, names, i + 1) && rest[i] == names[i + 1];
    }
    if NewKey(env, s.dirs.review, s.existing, names, k) {
      var i :| Chosen(env, s.dirs.review, s.existing, names, i) && k == KeyOf(env, s.dirs.review[names[i]]);
      if i > 0 {
        assert Chosen(env, t.dirs.review, t.existing, rest, i - 1) && rest[i - 1] == names[i];
      }
    }
  }

  lemma {:induction false} SameTexts(env: Env, s: RunState, t: RunState, names: seq<string>)
    requires StepThen(env, s, t, names) && AllIn(names, s.dirs.review) && AllIn(names[1..], t.dirs.review)
    ensures forall n :: n in names[1..] ==> t.dirs.review[n] == s.dirs.review[n]
  {
    hide Consider, Chosen, Target, NewText, KeyOf;
    StepMeans(env, s, t, names);
  }

  lemma {:induction false} FileStep(env: Env, s: RunState, t: RunState, r: RunState, names: seq<string>, f: string)
    requires StepThen(env, s, t, names) && AllIn(names, s.dirs.review) && AllIn(names[1..], t.dirs.review)
    requires FileIs(env, t, r, names[1..], f)
    ensures FileIs(env, s, r, names, f)
  {
    hide Consider, Chosen, Target, NewText, KeyOf;
    StepMeans(env, s, t, names);
    ChosenBehind(env, s, t, names);
    SameTexts(env, s, t, names);
    var rest := names[1..];
    ChosenBounds(env, s.dirs.review, s.existing, names);
    ChosenBounds(env, t.dirs.review, t.existing, rest);
    if exists i :: Writes(env, t.dirs.review, t.existing, rest, i, f) {
      var i :| Writes(env, t.dirs.review, t.existing, rest, i, f)
        && f in r.dirs.facts && r.dirs.facts[f] == NewText(env, t.dirs.review[rest[i]]);
      assert rest[i] == names[i + 1];
      assert Writes(env, s.dirs.review, s.existing, names, i + 1, f);
    } else {
      forall i | i > 0
        ensures !Writes(env, s.dirs.review, s.existing, names, i, f)
      {
        if Chosen(env, s.dirs.review, s.existing, names, i) {
          assert rest[i - 1] == names[i];
          assert !Writes(env, t.dirs.review, t.existing, rest, i - 1, f);
        }
      }
      forall i | i < 0
        ensures !Writes(env, s.dirs.review, s.existing, names, i, f)
      {
      }
      assert Writes(env, s.dirs.review, s.existing, names, 0, f) ==>
               f in r.dirs.facts && r.dirs.facts[f] == NewText(env, s.dirs.review[names[0]]);
    }
  }

  lemma {:induction false} CountStep(env: Env, s: RunState, t: RunState, r: RunState, names: seq<string>)
    requires StepThen(env, s, t, names) && AllIn(names, s.dirs.review) && AllIn(names[1..], t.dirs.review)
    requires CountIs(env, t, r, names[1..])
    ensures CountIs(env, s, r, names)
  {
    hide Consider, Chosen, Target, NewText, KeyOf;
    StepMeans(env, s, t, names);
    ChosenBehind(env, s, t, names);
    if i :| Chosen(env, t.dirs.review, t.existing, names[1..], i) {
      assert Chosen(env, s.dirs.review, s.existing, names, i + 1);
    }
  }

  lemma {:induction false} RunMeans(env: Env, s: RunState, names: seq<string>)
    requires EnvOk(env) && Ascending(names) && AllIn(names, s.dirs.review)
    ensures RunIs(env, s, ConsiderAll(env, s, names), names)
    decreases |names|
  {
    hide Consider, ReviewIs, FileIs, NewKey, CountIs;
    if names == [] {
      NothingToDo(env, s);
    } else {
      var t := Consider(env, s, names[0]);
      var r := ConsiderAll(env, s, names);
      AscendingTail(names);
      StepMeans(env, s, t, names);
      RunMeans(env, t, names[1..]);
      ReviewStep(env, s, t, r, names);
      CountStep(env, s, t, r, names);
      forall k
        ensures k in r.existing <==> k in s.existing || NewKey(env, s.dirs.review, s.existing, names, k)
      {
        KeysStep(env, s, t, r, names, k);
      }
      forall f
        ensures FileIs(env, s, r, names, f)
      {
        FileStep(env, s, t, r, names, f);
      }
    }
  }

  lemma {:induction false} NothingToDo(env: Env, s: RunState)
    ensures RunIs(env, s, s, [])
  {
  }

  /** Any candidate that is good enough leaves its key among the facts: its own or an earlier one's. */
  lemma {:induction false} KeyIsTaken(env: Env, review: map<string, string>, existing: set<string>, names: seq<string>,
                                      i: int) returns (j: int)
    requires AllIn(names, review) && 0 <= i < |names|
    requires Eligible(env, review[names[i]]) && KeyOf(env, review[names[i]]) !in existing
    ensures Chosen(env, review, existing, names, j)
    ensures KeyOf(env, review[names[j]]) == KeyOf(env, review[names[i]])
    decreases i
  {
    hide Eligible, KeyOf;
    if k :| 0 <= k < i && Eligible(env, review[names[k]])
            && KeyOf(env, review[names[k]]) == KeyOf(env, review[names[i]]) {
      j := KeyIsTaken(env, review, existing, names, k);
    } else {
      j := i;
    }
  }

  // ---------- a whole run ----------

  /** The set of keys the run starts from, and what it comes to. */
  ghost predicate IsRun(env: Env, dirs: Dirs, names: seq<string>) {
    EnvOk(env) && IsListing(dirs.review, names) && AllIn(names, dirs.review)
  }

  ghost predicate Picked(env: Env, dirs: Dirs, names: seq<string>, i: int)
    requires AllIn(names, dirs.review)
  {
    Chosen(env, dirs.review, KeysOfActive(env, dirs.facts), names, i)
  }

  lemma {:induction false} PromotionRun(env: Env, dirs: Dirs, names: seq<string>)
    requires IsRun(env, dirs, names)
    ensures RunIs(env, Started(env, dirs), Promote(env, dirs, names), names)
  {
    RunMeans(env, Started(env, dirs), names);
  }

  /** A candidate of quality: it names a source, says enough, is held with enough confidence, and has
      a key at all. */
  predicate Worthy(env: Env, text: string) {
    var parsed := Parsed(env, text);
    && parsed.frontMatter.Some?
    && parsed.frontMatter.value.sourceRefs != []
    && BodyChars(parsed.body) >= 12
    && parsed.frontMatter.value.confidence >= 0.70
    && KeyOf(env, text) != ""
  }

  lemma {:induction false} EligibleIffWorthy(env: Env, text: string)
    ensures Eligible(env, text) <==> Worthy(env, text)
  {
    hide JudgeCandidate, NormKey, BodyChars, ParseMarkdown;
    var parsed := Parsed(env, text);
    if parsed.frontMatter.Some? {
      JudgeIff(env.letters, parsed.frontMatter.value, parsed.body, {});
    }
  }

  /** A candidate leaves the review directory exactly when it is worthy, its key is that of no active
      fact, and no worthy candidate in front of it has the same key. */
  lemma {:induction false} LeavesIff(env: Env, dirs: Dirs, names: seq<string>, i: nat)
    requires IsRun(env, dirs, names) && i < |names|
    ensures names[i] !in Promote(env, dirs, names).dirs.review <==>
              && Worthy(env, dirs.review[names[i]])
              && KeyOf(env, dirs.review[names[i]]) !in KeysOfActive(env, dirs.facts)
              && forall j :: 0 <= j < i && Worthy(env, dirs.review[names[j]]) ==>
                   KeyOf(env, dirs.review[names[j]]) != KeyOf(env, dirs.review[names[i]])
  {
    hide Eligible, Worthy, KeyOf, KeysOfActive, ConsiderAll, FileIs, Target, NewText;
    PromotionRun(env, dirs, names);
    forall j | 0 <= j < |names|
      ensures Eligible(env, dirs.review[names[j]]) <==> Worthy(env, dirs.review[names[j]])
    {
      EligibleIffWorthy(env, dirs.review[names[j]]);
    }
  }

  /** The YAML library reads back every head the run writes. */
  ghost predicate WritesBack(env: Env, dirs: Dirs, names: seq<string>)
    requires AllIn(names, dirs.review)
  {
    forall i :: Picked(env, dirs, names, i) ==> ReadsBack(env, dirs.review[names[i]])
  }

  ghost predicate ReadsBack(env: Env, text: string) {
    var fm := Parsed(env, text).frontMatter;
    fm.Some? && PrintsBack(env.yaml, PromotedHead(fm.value, env.date))
  }

  /** What promotion makes of a head: an active, dated and tagged one of the second layer, not less
      important than one half or than before; all else stays. */
  predicate PromotedFrom(fm: FrontMatter, was: FrontMatter, date: string) {
    && fm.status == Active && fm.layer == L2 && fm.updatedAt == date
    && (was.importance < 0.5 ==> fm.importance == 0.5) && (was.importance >= 0.5 ==> fm.importance == was.importance)
    && "promoted" in fm.tags && (if "promoted" in was.tags then fm.tags == was.tags else fm.tags == was.tags + ["promoted"])
    && fm.id == was.id && fm.confidence == was.confidence && fm.sourceRefs == was.sourceRefs && fm.rest == was.rest
  }

  /** A promoted file reads back as an active fact with the candidate's key and what else its head said. */
  lemma {:induction false} PromotedReadsBack(env: Env, text: string)
    requires EnvOk(env) && ReadsBack(env, text)
    ensures IsActive(env, NewText(env, text))
    ensures KeyOf(env, NewText(env, text)) == KeyOf(env, text)
    ensures HasHead(env, text) && HasHead(env, NewText(env, text))
    ensures PromotedFrom(Parsed(env, NewText(env, text)).frontMatter.value, Parsed(env, text).frontMatter.value, env.date)
  {
    hide NormKey, PromotedBody, RenderMarkdown, ParseMarkdown;
    var parsed := Parsed(env, text);
    var head, body := PromotedHead(parsed.frontMatter.value, env.date), PromotedBody(parsed.body, env.date);
    ParseUndoesRender(env.yaml, head, body);
    TrimmedKeepsKey(env.letters, body);
    PromotedKeepsKey(env.letters, parsed.body, env.date);
  }

  lemma {:induction false} TargetIsMd(env: Env, name: string, text: string)
    requires IsMd(name) && HasHead(env, text)
    ensures IsMd(Target(env, name, text))
  {
    hide Parsed, IsWord;
  }

  // ---------- conservation ----------

  /** A file of `review/` that is still there as it was. */
  ghost predicate Left(before: Dirs, after: Dirs, name: string)
    requires name in before.review
  {
    name in after.review && after.review[name] == before.review[name]
  }

  /** One that is gone and has become a fact. */
  ghost predicate Moved(env: Env, before: Dirs, after: Dirs, name: string)
    requires name in before.review
  {
    var text := before.review[name];
    && name !in after.review
    && Target(env, name, text) in after.facts
    && after.facts[Target(env, name, text)] == NewText(env, text)
  }

  ghost predicate KeepsFacts(before: Dirs, after: Dirs) {
    forall f :: f in before.facts ==> f in after.facts && after.facts[f] == before.facts[f]
  }

  ghost predicate AddedFor(env: Env, before: Dirs, after: Dirs, names: seq<string>, f: string)
    requires AllIn(names, before.review)
  {
    exists n :: n in names && Moved(env, before, after, n) && f == Target(env, n, before.review[n])
  }

  /** Nothing is lost: every candidate stays as it is or becomes a fact; no other file changes. */
  ghost predicate Conserves(env: Env, before: Dirs, after: Dirs, names: seq<string>)
    requires AllIn(names, before.review)
  {
    && (forall n :: n in names ==> Left(before, after, n) || Moved(env, before, after, n))
    && (forall n :: n in before.review && n !in names ==> Left(before, after, n))
    && (forall n :: n in after.review ==> n in before.review)
    && KeepsFacts(before, after)
    && (forall f :: f in after.facts ==> f in before.facts || AddedFor(env, before, after, names, f))
  }

  /** Each candidate that is picked has a file name of its own, which no fact uses. Whether one is
      picked can be told before the run: it is the first eligible one with its key. */
  ghost predicate OwnTargets(env: Env, dirs: Dirs, names: seq<string>)
    requires AllIn(names, dirs.review)
  {
    && (forall i :: Picked(env, dirs, names, i) ==> Target(env, names[i], dirs.review[names[i]]) !in dirs.facts)
    && (forall i, j :: Picked(env, dirs, names, i) && Picked(env, dirs, names, j) ==>
          Target(env, names[i], dirs.review[names[i]]) == Target(env, names[j], dirs.review[names[j]]) ==> i == j)
  }

  lemma {:induction false} PickedBounds(env: Env, dirs: Dirs, names: seq<string>)
    requires AllIn(names, dirs.review)
    ensures forall i :: Picked(env, dirs, names, i) ==> 0 <= i < |names| && names[i] in names && names[i] in dirs.review
  {
    ChosenBounds(env, dirs.review, KeysOfActive(env, dirs.facts), names);
  }

  /** With file names of their own, what the picked candidates write stays. */
  lemma {:induction false} PickedFacts(env: Env, dirs: Dirs, names: seq<string>, i: int)
    requires IsRun(env, dirs, names) && OwnTargets(env, dirs, names) && Picked(env, dirs, names, i)
    ensures 0 <= i < |names| && Moved(env, dirs, Promote(env, dirs, names).dirs, names[i])
  {
    hide Eligible, KeyOf, Target, NewText, KeysOfActive, ConsiderAll, Chosen;
    PromotionRun(env, dirs, names);
    PickedBounds(env, dirs, names);
    var r := Promote(env, dirs, names);
    var f := Target(env, names[i], dirs.review[names[i]]);
    assert FileIs(env, Started(env, dirs), r, names, f);
    assert Writes(env, dirs.review, KeysOfActive(env, dirs.facts), names, i, f);
    var j :| Writes(env, dirs.review, KeysOfActive(env, dirs.facts), names, j, f)
      && f in r.dirs.facts && r.dirs.facts[f] == NewText(env, dirs.review[names[j]]);
    assert Picked(env, dirs, names, j);
    assert i == j;
  }

  lemma {:induction false} OwnTargetsConserve(env: Env, dirs: Dirs, names: seq<string>)
    requires IsRun(env, dirs, names) && OwnTargets(env, dirs, names)
    ensures Conserves(env, dirs, Promote(env, dirs, names).dirs, names)
  {
    hide Eligible, KeyOf, Target, NewText, KeysOfActive, ConsiderAll, Chosen, Moved;
    PromotionRun(env, dirs, names);
    PickedBounds(env, dirs, names);
    var r := Promote(env, dirs, names);
    var keys := KeysOfActive(env, dirs.facts);
    forall n | n in names
      ensures Left(dirs, r.dirs, n) || Moved(env, dirs, r.dirs, n)
    {
      var i :| 0 <= i < |names| && names[i] == n;
      if Picked(env, dirs, names, i) {
        PickedFacts(env, dirs, names, i);
      }
    }
    assert forall i, f :: Writes(env, dirs.review, keys, names, i, f) ==> Picked(env, dirs, names, i);
    forall f | f in dirs.facts
      ensures f in r.dirs.facts && r.dirs.facts[f] == dirs.facts[f]
    {
      assert FileIs(env, Started(env, dirs), r, names, f);
    }
    forall f | f in r.dirs.facts && f !in dirs.facts
      ensures AddedFor(env, dirs, r.dirs, names, f)
    {
      assert FileIs(env, Started(env, dirs), r, names, f);
      var i :| Writes(env, dirs.review, keys, names, i, f);
      assert Picked(env, dirs, names, i);
      PickedFacts(env, dirs, names, i);
    }
  }

  lemma {:induction false} ConservingMoves(env: Env, dirs: Dirs, names: seq<string>, i: int)
    requires IsRun(env, dirs, names) && Conserves(env, dirs, Promote(env, dirs, names).dirs, names)
    requires Picked(env, dirs, names, i)
    ensures 0 <= i < |names| && Moved(env, dirs, Promote(env, dirs, names).dirs, names[i])
  {
    hide Eligible, KeyOf, Target, NewText, KeysOfActive, ConsiderAll, Chosen, Moved;
    PromotionRun(env, dirs, names);
    PickedBounds(env, dirs, names);
    assert names[i] !in Promote(env, dirs, names).dirs.review;
  }

  lemma {:induction false} PickedIsNew(env: Env, dirs: Dirs, names: seq<string>, i: int)
    requires AllIn(names, dirs.review) && Picked(env, dirs, names, i)
    ensures 0 <= i < |names| && KeyOf(env, dirs.review[names[i]]) !in KeysOfActive(env, dirs.facts)
    ensures HasHead(env, dirs.review[names[i]])
    ensures forall j :: Picked(env, dirs, names, j) && KeyOf(env, dirs.review[names[j]]) == KeyOf(env, dirs.review[names[i]]) ==>
              i == j
  {
    hide KeyOf, KeysOfActive, JudgeCandidate, Parsed;
    AcceptedIs(env, dirs.review[names[i]], {});
  }

  /** A run conserves exactly when every candidate it picks has a fact file of its own: otherwise an
      older fact, or one just promoted, is overwritten. */
  lemma {:induction false} ConservesIffOwnTargets(env: Env, dirs: Dirs, names: seq<string>)
    requires IsRun(env, dirs, names) && WritesBack(env, dirs, names)
    ensures Conserves(env, dirs, Promote(env, dirs, names).dirs, names) <==> OwnTargets(env, dirs, names)
  {
    hide Eligible, KeyOf, Target, NewText, ConsiderAll, Promote, Picked, IsActive, IsMd, ReadsBack, HasHead;
    var r := Promote(env, dirs, names);
    PickedBounds(env, dirs, names);
    if OwnTargets(env, dirs, names) {
      OwnTargetsConserve(env, dirs, names);
    }
    if Conserves(env, dirs, r.dirs, names) {
      forall i | Picked(env, dirs, names, i)
        ensures Target(env, names[i], dirs.review[names[i]]) !in dirs.facts
      {
        var text := dirs.review[names[i]];
        var f := Target(env, names[i], text);
        ConservingMoves(env, dirs, names, i);
        assert f in dirs.facts ==> dirs.facts[f] == NewText(env, text);
        PickedIsNew(env, dirs, names, i);
        PromotedReadsBack(env, text);
        TargetIsMd(env, names[i], text);
      }
      forall i, j | Picked(env, dirs, names, i) && Picked(env, dirs, names, j)
                    && Target(env, names[i], dirs.review[names[i]]) == Target(env, names[j], dirs.review[names[j]])
        ensures i == j
      {
        ConservingMoves(env, dirs, names, i);
        ConservingMoves(env, dirs, names, j);
        PromotedReadsBack(env, dirs.review[names[i]]);
        PromotedReadsBack(env, dirs.review[names[j]]);
        PickedIsNew(env, dirs, names, i);
      }
    }
  }

  // ---------- keys, and a second run ----------

  /** The keys noted during the run are those of the active facts it leaves behind. */
  lemma {:induction false} KeysAreTrue(env: Env, dirs: Dirs, names: seq<string>)
    requires IsRun(env, dirs, names) && WritesBack(env, dirs, names) && OwnTargets(env, dirs, names)
    ensures KeysOfActive(env, Promote(env, dirs, names).dirs.facts) == Promote(env, dirs, names).existing
  {
    hide Eligible, KeyOf, Target, NewText, ConsiderAll, Chosen, IsActive, IsMd, ReadsBack, HasHead;
    var r := Promote(env, dirs, names);
    var keys := KeysOfActive(env, dirs.facts);
    PromotionRun(env, dirs, names);
    PickedBounds(env, dirs, names);
    OwnTargetsConserve(env, dirs, names);
    forall f | f in r.dirs.facts && IsMd(f) && IsActive(env, r.dirs.facts[f])
      ensures KeyOf(env, r.dirs.facts[f]) in r.existing
    {
      if f !in dirs.facts {
        assert FileIs(env, Started(env, dirs), r, names, f);
        var i :| Writes(env, dirs.review, keys, names, i, f)
          && r.dirs.facts[f] == NewText(env, dirs.review[names[i]]);
        assert Picked(env, dirs, names, i);
        PromotedReadsBack(env, dirs.review[names[i]]);
        assert NewKey(env, dirs.review, keys, names, KeyOf(env, r.dirs.facts[f]));
      }
    }
    forall k | k in r.existing
      ensures k in KeysOfActive(env, r.dirs.facts)
    {
      if k in keys {
        var f :| f in dirs.facts && IsMd(f) && IsActive(env, dirs.facts[f]) && k == KeyOf(env, dirs.facts[f]);
        assert f in r.dirs.facts && r.dirs.facts[f] == dirs.facts[f];
      } else {
        assert NewKey(env, dirs.review, keys, names, k);
        var i :| Chosen(env, dirs.review, keys, names, i) && k == KeyOf(env, dirs.review[names[i]]);
        assert Picked(env, dirs, names, i);
        PickedFacts(env, dirs, names, i);
        PickedIsNew(env, dirs, names, i);
        PromotedReadsBack(env, dirs.review[names[i]]);
        TargetIsMd(env, names[i], dirs.review[names[i]]);
      }
    }
  }

  /** A candidate that was not picked would not be picked with the keys the run leaves. */
  lemma {:induction false} RefusedForGood(env: Env, dirs: Dirs, names: seq<string>, n: string)
    requires IsRun(env, dirs, names) && n in names && n in Promote(env, dirs, names).dirs.review
    ensures !(Eligible(env, dirs.review[n]) && KeyOf(env, dirs.review[n]) !in Promote(env, dirs, names).existing)
  {
    hide Eligible, KeyOf, Target, NewText, KeysOfActive, ConsiderAll, FileIs;
    var r := Promote(env, dirs, names);
    var keys := KeysOfActive(env, dirs.facts);
    PromotionRun(env, dirs, names);
    var i :| 0 <= i < |names| && names[i] == n;
    if Eligible(env, dirs.review[n]) && KeyOf(env, dirs.review[n]) !in keys {
      var j := KeyIsTaken(env, dirs.review, keys, names, i);
      assert NewKey(env, dirs.review, keys, names, KeyOf(env, dirs.review[n]));
    }
  }

  lemma {:induction false} NonePickedNothingDone(env: Env, dirs: Dirs, names: seq<string>)
    requires IsRun(env, dirs, names) && forall i :: !Picked(env, dirs, names, i)
    ensures Promote(env, dirs, names).dirs == dirs && Promote(env, dirs, names).promoted == []
  {
    hide Eligible, KeyOf, Target, NewText, KeysOfActive, ConsiderAll, Chosen;
    PromotionRun(env, dirs, names);
    var r := Promote(env, dirs, names);
    forall i
      ensures !Chosen(env, dirs.review, KeysOfActive(env, dirs.facts), names, i)
    {
      assert !Picked(env, dirs, names, i);
    }
    forall f
      ensures f in r.dirs.facts <==> f in dirs.facts
      ensures f in dirs.facts ==> r.dirs.facts[f] == dirs.facts[f]
    {
      assert FileIs(env, Started(env, dirs), r, names, f);
    }
    forall n
      ensures n in r.dirs.review <==> n in dirs.review
    {
      if n in names {
        var i :| 0 <= i < |names| && names[i] == n;
        assert !Picked(env, dirs, names, i);
      }
    }
  }

  /** A second run, on any later date, finds nothing to promote and changes no file. */
  lemma {:induction false} SecondRunPromotesNothing(env: Env, dirs: Dirs, names: seq<string>, later: string,
                                                    rest: seq<string>)
    requires IsRun(env, dirs, names) && WritesBack(env, dirs, names) && OwnTargets(env, dirs, names)
    requires var r := Promote(env, dirs, names); IsRun(env.(date := later), r.dirs, rest)
    ensures var r := Promote(env, dirs, names);
            && Promote(env.(date := later), r.dirs, rest).dirs == r.dirs
            && Promote(env.(date := later), r.dirs, rest).promoted == []
  {
    hide Eligible, KeyOf, Target, NewText, KeysOfActive, ConsiderAll, FileIs, IsMd, WritesBack, OwnTargets;
    var r := Promote(env, dirs, names);
    var env' := env.(date := later);
    PromotionRun(env, dirs, names);
    KeysAreTrue(env, dirs, names);
    SameKeys(env, env', r.dirs.facts);
    forall i
      ensures !Picked(env', r.dirs, rest, i)
    {
      if 0 <= i < |rest| {
        var n := rest[i];
        assert n in rest;
        assert n in r.dirs.review && n in dirs.review && r.dirs.review[n] == dirs.review[n];
        assert n in names;
        RefusedForGood(env, dirs, names, n);
        SameJudgement(env, env', dirs.review[n]);
      }
    }
    NonePickedNothingDone(env', r.dirs, rest);
  }

  /** The date plays no part in judging. */
  lemma {:induction false} SameKeys(env: Env, env': Env, facts: map<string, string>)
    requires env' == env.(date := env'.date)
    ensures KeysOfActive(env', facts) == KeysOfActive(env, facts)
  {
    hide ParseMarkdown, NormKey;
    assert forall t :: IsActive(env', t) == IsActive(env, t);
    assert forall t :: KeyOf(env', t) == KeyOf(env, t);
  }

  lemma {:induction false} SameJudgement(env: Env, env': Env, text: string)
    requires env' == env.(date := env'.date)
    ensures Eligible(env', text) == Eligible(env, text) && KeyOf(env', text) == KeyOf(env, text)
  {
    hide ParseMarkdown, JudgeCandidate, NormKey;
  }

  // ---------- a run that promotes ----------

  lemma {:induction false} OneLine(line: string)
    requires line != "" && '\n' !in line
    ensures LinesOf(line) == [line]
  {
    var i := Find(line, "\n");
    AtChar(line, "\n", i, 0);
  }

  lemma {:induction false} Visible(line: string)
    requires forall c :: c in line ==> !IsWhite(c)
    ensures LineChars(line) == |line|
  {
    if line != "" {
      assert line[0] in line;
      Visible(line[1..]);
    }
  }

  /** A one-line body of twelve letters passes. */
  lemma {:induction false} GoodBody(letters: Letters, line: string)
    requires |line| >= MIN_BODY_CHARS && forall c :: c in line ==> 'a' <= c <= 'z' && letters.alnum(c)
    ensures BodyChars(line) >= MIN_BODY_CHARS && NormKey(letters, line) != "" && TrimNewlines(line) == line
  {
    hide IsWhite, LinesOf, IsNoise, LineKey;
    assert line[0] in line;
    forall c | c in line
      ensures !IsWhite(c)
    {
      LettersAreVisible(c);
    }
    OneLine(line);
    Visible(line);
    LettersAreNoNoise(line);
    FirstLetter(letters, line);
    assert [line][1..] == [];
  }

  lemma {:induction false} LettersAreVisible(c: char)
    requires 'a' <= c <= 'z'
    ensures !IsWhite(c)
  {
  }

  lemma {:induction false} LettersAreNoNoise(line: string)
    requires line != "" && forall c :: c in line ==> 'a' <= c <= 'z'
    ensures !IsNoise(line)
  {
    hide IsWhite, Trim, TrimStart, TrimEnd;
    assert line[0] in line && line[|line| - 1] in line;
    LettersAreVisible(line[0]);
    LettersAreVisible(line[|line| - 1]);
    TrimTrimmed(line);
  }

  lemma {:induction false} FirstLetter(letters: Letters, line: string)
    requires line != "" && letters.alnum(line[0])
    ensures LineKey(letters, line) != ""
  {
  }

  const SAMPLE := FrontMatter("a", L1, Candidate, "", 0.7, 0.5, [], ["session"], "")
  const SAMPLE_BODY := "abcdefghijkl"

  function SampleYaml(date: string): Yaml {
    Yaml((fm: FrontMatter) => if fm.status == Active then "new\n" else "old\n",
         (s: string) => if s == "old" then Some(SAMPLE) else if s == "new" then Some(PromotedHead(SAMPLE, date)) else None)
  }

  function SampleEnv(date: string): Env {
    Env(SampleYaml(date), Letters((c: char) => 'a' <= c <= 'z', (c: char) => c), date)
  }

  lemma {:induction false} SamplePrints(date: string)
    ensures PrintsBack(SampleYaml(date), SAMPLE)
    ensures PrintsBack(SampleYaml(date), PromotedHead(SAMPLE, date))
  {
    forall i
      ensures !At("old\n", CLOSING, i) && !At("new\n", CLOSING, i)
    {
      AtChar("old\n", CLOSING, i, 1);
      AtChar("new\n", CLOSING, i, 1);
    }
    assert "old\n"[..3] == "old" && "new\n"[..3] == "new";
  }

  lemma {:induction false} SampleIsEligible(date: string)
    ensures var text := RenderMarkdown(SampleYaml(date), SAMPLE, SAMPLE_BODY);
            Parsed(SampleEnv(date), text) == ParsedMarkdown(Some(SAMPLE), SAMPLE_BODY) && Eligible(SampleEnv(date), text)
  {
    hide NormKey, BodyChars, ParseMarkdown, RenderMarkdown, PrintsBack;
    SamplePrints(date);
    ParseUndoesRender(SampleYaml(date), SAMPLE, SAMPLE_BODY);
    GoodBody(SampleEnv(date).letters, SAMPLE_BODY);
  }

  /** The hypotheses of this file can be met by a run that promotes, on every date. */
  lemma {:induction false} SomethingIsPromoted(secs: int) returns (env: Env, dirs: Dirs, names: seq<string>)
    ensures env.date == DateFromSecs(secs)
    ensures IsRun(env, dirs, names) && WritesBack(env, dirs, names) && OwnTargets(env, dirs, names)
    ensures Promote(env, dirs, names).promoted != []
  {
    hide Eligible, KeyOf, Target, PrintsBack, ConsiderAll, RenderMarkdown, Parsed, SampleYaml, DateFromSecs;
    var date := DateFromSecs(secs);
    env := SampleEnv(date);
    TodayIsOk(env, secs);
    assert env.(date := date) == env;
    var text := RenderMarkdown(SampleYaml(date), SAMPLE, SAMPLE_BODY);
    dirs := Dirs(map[], map["a.md" := text]);
    names := ["a.md"];
    SampleIsEligible(date);
    SamplePrints(date);
    assert KeysOfActive(env, dirs.facts) == {};
    assert Picked(env, dirs, names, 0);
    PromotionRun(env, dirs, names);
  }
}
