/** Incremental indexing of the knowledge root (`harness-capability/src/index.rs`). */
module Knowledge {
  import opened Options
  import opened Text
  import opened Terms
  import opened Inverted

  /** Modification time in seconds and size: what a change is judged by. */
  datatype Stamp = Stamp(mtime: nat, size: nat)

  datatype File = File(stamp: Stamp, content: string)

  /** Files below the knowledge root by relative path. */
  type Files = map<string, File>

  datatype FileCheckpoint = FileCheckpoint(rel: string, stamp: Stamp)

  // ---------- which files are pages, and their ids ----------

  const EXTENSION := ".md"
  const REVIEW := "review/"

  /** The part behind the last slash. */
  function FileName(rel: string): string {
    if rel == [] || rel[|rel| - 1] == '/' then "" else FileName(rel[..|rel| - 1]) + [rel[|rel| - 1]]
  }

  /** Markdown files, except the unreviewed candidates at the top. */
  predicate IsPage(rel: string) {
    EndsWith(FileName(rel), EXTENSION) && FileName(rel) != EXTENSION && !(REVIEW <= rel)
  }

  /** A file `name` in the directory `dir` is a page exactly when it is a Markdown file with a proper
      name and does not lie under the top directory `review/`. */
  lemma {:induction false} PageIff(dir: string, name: string)
    requires '/' !in name && (dir == "" || dir[|dir| - 1] == '/')
    ensures IsPage(dir + name) <==> EndsWith(name, ".md") && |name| > 3 && !("review/" <= dir)
  {
    FileNameIs(dir, name);
    TopReview(dir, name);
    hide FileName;
    assert EndsWith(name, ".md") ==> name[|name| - 3..] == ".md" && |name| >= 3;
    assert name[0..] == name;
  }

  lemma {:induction false} TopReview(dir: string, name: string)
    requires '/' !in name
    ensures REVIEW <= dir + name <==> REVIEW <= dir
  {
    var rel := dir + name;
    assert forall i :: 0 <= i < |name| ==> name[i] in name && rel[|dir| + i] == name[i];
    assert |REVIEW| == 7 && REVIEW[6] == '/';
    if REVIEW <= rel {
      assert rel[6] == '/';
      assert |dir| >= 7;
      assert rel[..7] == dir[..7];
    }
  }

  lemma {:induction false} FileNameIs(dir: string, name: string)
    requires '/' !in name && (dir == "" || dir[|dir| - 1] == '/')
    ensures FileName(dir + name) == name
  {
    if name == "" {
      assert dir + name == dir;
    } else {
      var n := |name| - 1;
      assert (dir + name)[..|dir + name| - 1] == dir + name[..n];
      assert name[n] in name && forall c :: c in name[..n] ==> c in name;
      FileNameIs(dir, name[..n]);
      assert name == name[..n] + [name[n]];
    }
  }

  function TrimExtension(rel: string): string {
    if EndsWith(rel, EXTENSION) then TrimExtension(rel[..|rel| - |EXTENSION|]) else rel
  }

  function Sanitize(id: string, alnum: char -> bool): string {
    seq(|id|, i requires 0 <= i < |id| => if alnum(id[i]) || id[i] in "_-." then id[i] else '_')
  }

  function PageId(rel: string, alnum: char -> bool): string {
    Sanitize(TrimExtension(rel), alnum)
  }

  /** A path without its extensions, which are all at its end. */
  ghost predicate StemOf(rel: string, stem: string) {
    && stem <= rel && (|rel| - |stem|) % 3 == 0 && !EndsWith(stem, ".md")
    && forall i :: |stem| <= i < |rel| ==> rel[i] == ".md"[(i - |stem|) % 3]
  }

  lemma {:induction false} TrimExtensionIs(rel: string)
    ensures StemOf(rel, TrimExtension(rel))
    decreases |rel|
  {
    if EndsWith(rel, EXTENSION) {
      var front := rel[..|rel| - 3];
      assert rel[|rel| - 3..] == ".md" && rel == front + ".md";
      TrimExtensionIs(front);
      var stem := TrimExtension(front);
      hide EndsWith, TrimExtension;
      ExtensionMore(front, stem);
    }
  }

  lemma {:induction false} ExtensionMore(front: string, stem: string)
    requires StemOf(front, stem)
    ensures StemOf(front + ".md", stem)
  {
    hide EndsWith;
    var rel := front + ".md";
    forall i | |stem| <= i < |rel|
      ensures rel[i] == ".md"[(i - |stem|) % 3]
    {
      if i < |front| {
        assert rel[i] == front[i];
      } else {
        var k := i - |front|;
        assert (i - |stem|) % 3 == k && rel[i] == ".md"[k];
      }
    }
  }

  /** A character that an id keeps. */
  predicate IdChar(c: char, alnum: char -> bool) {
    alnum(c) || c == '_' || c == '-' || c == '.'
  }

  /** Two paths have one id exactly when their stems differ only where both have an underscore or a
      character that is written as one; a stem without such characters is its id. */
  lemma {:induction false} SameIdIff(a: string, b: string, s: string, t: string, alnum: char -> bool)
    requires StemOf(a, s) && StemOf(b, t)
    ensures PageId(a, alnum) == PageId(b, alnum) <==>
              && |s| == |t|
              && forall i :: 0 <= i < |s| && s[i] != t[i] ==>
                   (s[i] == '_' || !IdChar(s[i], alnum)) && (t[i] == '_' || !IdChar(t[i], alnum))
    ensures PageId(a, alnum) == s <==> forall c :: c in s ==> IdChar(c, alnum)
  {
    TrimExtensionIs(a);
    TrimExtensionIs(b);
    StemIsUnique(a, s, TrimExtension(a));
    StemIsUnique(b, t, TrimExtension(b));
    hide *;
    assert PageId(a, alnum) == Sanitize(s, alnum) && PageId(b, alnum) == Sanitize(t, alnum) by {
      PageIdOf(a, s, alnum);
      PageIdOf(b, t, alnum);
    }
    SanitizeSame(s, t, alnum);
    SanitizeKeeps(s, alnum);
  }

  lemma {:induction false} PageIdOf(rel: string, stem: string, alnum: char -> bool)
    requires stem == TrimExtension(rel)
    ensures PageId(rel, alnum) == Sanitize(stem, alnum)
  {
  }

  lemma {:induction false} SanitizeSame(s: string, t: string, alnum: char -> bool)
    ensures Sanitize(s, alnum) == Sanitize(t, alnum) <==>
              && |s| == |t|
              && forall i :: 0 <= i < |s| && s[i] != t[i] ==>
                   (s[i] == '_' || !IdChar(s[i], alnum)) && (t[i] == '_' || !IdChar(t[i], alnum))
  {
    var x, y := Sanitize(s, alnum), Sanitize(t, alnum);
    if |s| == |t| {
      forall i | 0 <= i < |s|
        ensures x[i] == y[i] <==>
                  s[i] == t[i] || ((s[i] == '_' || !IdChar(s[i], alnum)) && (t[i] == '_' || !IdChar(t[i], alnum)))
      {
        SanitizeAt(s, i, alnum);
        SanitizeAt(t, i, alnum);
      }
    }
    assert |x| == |s| && |y| == |t|;
    hide Sanitize, IdChar;
    if x == y {
      assert forall i :: 0 <= i < |s| ==> x[i] == y[i];
    }
  }

  lemma {:induction false} SanitizeAt(s: string, i: nat, alnum: char -> bool)
    requires i < |s|
    ensures Sanitize(s, alnum)[i] == if IdChar(s[i], alnum) then s[i] else '_'
  {
  }

  lemma {:induction false} SanitizeKeeps(s: string, alnum: char -> bool)
    ensures Sanitize(s, alnum) == s <==> forall c :: c in s ==> IdChar(c, alnum)
  {
    var x := Sanitize(s, alnum);
    forall i | 0 <= i < |s|
      ensures x[i] == s[i] <==> IdChar(s[i], alnum)
    {
      SanitizeAt(s, i, alnum);
    }
    if x == s {
      forall c | c in s
        ensures IdChar(c, alnum)
      {
        var i :| 0 <= i < |s| && s[i] == c;
        assert x[i] == s[i];
      }
    }
  }

  lemma {:induction false} StemIsUnique(rel: string, s: string, t: string)
    requires StemOf(rel, s) && StemOf(rel, t)
    ensures s == t
  {
    if |s| < |t| {
      LongerHasExtension(rel, s, t);
    } else if |t| < |s| {
      LongerHasExtension(rel, t, s);
    } else {
      assert s == rel[..|s|] && t == rel[..|s|];
    }
  }

  lemma {:induction false} LongerHasExtension(rel: string, s: string, t: string)
    requires StemOf(rel, s) && t <= rel && (|rel| - |t|) % 3 == 0 && |s| < |t|
    ensures EndsWith(t, ".md")
  {
    var n := |t|;
    assert n - |s| >= 3 && (n - |s|) % 3 == 0;
    forall i | 0 <= i < 3
      ensures t[n - 3..][i] == ".md"[i]
    {
      assert (n - 3 + i - |s|) % 3 == i;
      assert t[n - 3 + i] == rel[n - 3 + i];
    }
  }

  // ---------- checkpoints ----------

  function StampOf(files: seq<FileCheckpoint>, rel: string): Option<Stamp> {
    if files == [] then None
    else if files[0].rel == rel then Some(files[0].stamp)
    else StampOf(files[1..], rel)
  }

  predicate NeedsReindex(files: seq<FileCheckpoint>, rel: string, stamp: Stamp) {
    StampOf(files, rel) != Some(stamp)
  }

  function Updated(files: seq<FileCheckpoint>, rel: string, stamp: Stamp): seq<FileCheckpoint> {
    if files == [] then [FileCheckpoint(rel, stamp)]
    else if files[0].rel == rel then [FileCheckpoint(rel, stamp)] + files[1..]
    else [files[0]] + Updated(files[1..], rel, stamp)
  }

  function Kept(files: seq<FileCheckpoint>, seen: set<string>): seq<FileCheckpoint> {
    if files == [] then []
    else (if files[0].rel in seen then [files[0]] else []) + Kept(files[1..], seen)
  }

  function Gone(files: seq<FileCheckpoint>, seen: set<string>): seq<string> {
    if files == [] then []
    else (if files[0].rel in seen then [] else [files[0].rel]) + Gone(files[1..], seen)
  }

  predicate OncePerFile(files: seq<FileCheckpoint>) {
    forall i, j :: 0 <= i < j < |files| ==> files[i].rel != files[j].rel
  }

  lemma {:induction false} StampOfIs(files: seq<FileCheckpoint>, rel: string)
    ensures StampOf(files, rel).Some? <==> exists k :: 0 <= k < |files| && files[k].rel == rel
  {
    if files != [] && files[0].rel != rel {
      StampOfIs(files[1..], rel);
      assert forall k :: 0 < k < |files| ==> files[k] == files[1..][k - 1];
    }
  }

  lemma {:induction false} UpdatedStamps(files: seq<FileCheckpoint>, rel: string, stamp: Stamp)
    ensures forall r :: StampOf(Updated(files, rel, stamp), r) == if r == rel then Some(stamp) else StampOf(files, r)
    ensures OncePerFile(files) ==> OncePerFile(Updated(files, rel, stamp))
  {
    if files != [] && files[0].rel != rel {
      var rest := Updated(files[1..], rel, stamp);
      UpdatedStamps(files[1..], rel, stamp);
      assert Updated(files, rel, stamp)[1..] == rest;
      if OncePerFile(files) {
        forall j | 0 <= j < |rest|
          ensures rest[j].rel != files[0].rel
        {
          StampOfIs(rest, files[0].rel);
          StampOfIs(files[1..], files[0].rel);
        }
      }
    } else if files != [] {
      assert Updated(files, rel, stamp)[1..] == files[1..];
    }
  }

  lemma {:induction false} KeptStamps(files: seq<FileCheckpoint>, seen: set<string>)
    ensures forall r :: StampOf(Kept(files, seen), r) == if r in seen then StampOf(files, r) else None
    ensures OncePerFile(files) ==> OncePerFile(Kept(files, seen))
    ensures forall r :: r in Gone(files, seen) <==> r !in seen && StampOf(files, r).Some?
  {
    if files != [] {
      KeptStamps(files[1..], seen);
      var rest := Kept(files[1..], seen);
      if files[0].rel in seen {
        assert Kept(files, seen)[1..] == rest;
        if OncePerFile(files) {
          forall j | 0 <= j < |rest|
            ensures rest[j].rel != files[0].rel
          {
            StampOfIs(rest, files[0].rel);
            StampOfIs(files[1..], files[0].rel);
          }
        }
      } else {
        assert Kept(files, seen) == rest;
      }
    }
  }

  // ---------- what the index should hold ----------

  /** The alphabet of ids, and the searchable text of the page made from a file. */
  datatype Rules = Rules(alnum: char -> bool, textOf: (string, string) -> string)

  function IdOf(u: Rules, rel: string): string {
    PageId(rel, u.alnum)
  }

  ghost function FileTerms(u: Rules, files: Files, rel: string): set<string>
    requires rel in files
  {
    TermsOf(u.textOf(rel, files[rel].content))
  }

  function Pages(files: Files): Files {
    map rel | rel in files && IsPage(rel) :: files[rel]
  }

  ghost predicate OneIdEach(u: Rules, files: Files) {
    forall a, b :: a in files && b in files && IdOf(u, a) == IdOf(u, b) ==> a == b
  }

  /** Records are those of files that are there, as they are; the empty id has none. */
  ghost predicate Sound(u: Rules, docs: map<string, set<string>>, files: Files) {
    forall id :: id in docs ==> SoundAt(u, docs, files, id)
  }

  ghost predicate SoundAt(u: Rules, docs: map<string, set<string>>, files: Files, id: string)
    requires id in docs
  {
    id != "" && exists rel :: rel in files && IdOf(u, rel) == id && docs[id] == FileTerms(u, files, rel)
  }

  /** Every file whose id is not empty has its record. */
  ghost predicate Complete(u: Rules, docs: map<string, set<string>>, files: Files) {
    forall rel :: rel in files && IdOf(u, rel) != "" ==> IdOf(u, rel) in docs
  }

  ghost predicate Mirrors(u: Rules, docs: map<string, set<string>>, files: Files) {
    Sound(u, docs, files) && Complete(u, docs, files)
  }

  lemma {:induction false} SoundHas(u: Rules, docs: map<string, set<string>>, files: Files, rel: string)
    requires Sound(u, docs, files) && OneIdEach(u, files) && rel in files && IdOf(u, rel) in docs
    ensures docs[IdOf(u, rel)] == FileTerms(u, files, rel)
  {
    hide IdOf, FileTerms;
    assert SoundAt(u, docs, files, IdOf(u, rel));
  }

  /** So the files decide the records: an incremental index equals one built from scratch. */
  lemma {:induction false} MirrorsUnique(u: Rules, d: map<string, set<string>>, e: map<string, set<string>>, files: Files)
    requires Mirrors(u, d, files) && Mirrors(u, e, files) && OneIdEach(u, files)
    ensures d == e
  {
    hide IdOf, FileTerms;
    forall id
      ensures id in d <==> id in e
      ensures id in d && id in e ==> d[id] == e[id]
    {
      if id in d {
        assert SoundAt(u, d, files, id);
        var rel :| rel in files && IdOf(u, rel) == id && d[id] == FileTerms(u, files, rel);
        SoundHas(u, e, files, rel);
      }
      if id in e {
        assert SoundAt(u, e, files, id);
      }
    }
  }

  // ---------- what a walk writes ----------

  /** A file that is new, or whose time or size is not the one recorded. */
  ghost predicate Changed(before: Files, now: Files, rel: string)
    requires rel in now
  {
    rel !in before || before[rel].stamp != now[rel].stamp
  }

  /** A file whose time and size are as recorded has not changed. */
  ghost predicate HonestStamps(before: Files, now: Files) {
    forall rel :: rel in before && rel in now && before[rel].stamp == now[rel].stamp ==>
      before[rel].content == now[rel].content
  }

  /** The walk has written the record of `rel` under `id`. */
  ghost predicate Wrote(u: Rules, before: Files, now: Files, done: set<string>, rel: string, id: string) {
    rel in done && rel in now && Changed(before, now, rel) && IdOf(u, rel) == id
  }

  ghost predicate SameAt<V>(m: map<string, V>, n: map<string, V>, id: string) {
    (id in m <==> id in n) && (id in m && id in n ==> m[id] == n[id])
  }

  /** A record after part of a walk: written by a changed file, or as it was. */
  ghost predicate RecordIs(u: Rules, before: Files, now: Files, done: set<string>,
                           docs0: map<string, set<string>>, docs: map<string, set<string>>, id: string) {
    || (id != "" && id in docs
        && exists rel :: Wrote(u, before, now, done, rel, id) && docs[id] == FileTerms(u, now, rel))
    || ((id != "" ==> forall rel :: !Wrote(u, before, now, done, rel, id)) && SameAt(docs0, docs, id))
  }

  ghost predicate PageIs(u: Rules, before: Files, now: Files, done: set<string>,
                         wiki0: map<string, WikiPage>, wiki: map<string, WikiPage>, id: string) {
    || (id in wiki
        && exists rel :: Wrote(u, before, now, done, rel, id) && wiki[id] == WikiPage(rel, now[rel].content))
    || ((forall rel :: !Wrote(u, before, now, done, rel, id)) && SameAt(wiki0, wiki, id))
  }

  lemma {:induction false} RecordStep(u: Rules, before: Files, now: Files, done: set<string>,
                                      docs0: map<string, set<string>>, docs: map<string, set<string>>,
                                      rel: string, id: string)
    requires rel in now && RecordIs(u, before, now, done, docs0, docs, id)
    ensures RecordIs(u, before, now, done + {rel}, docs0,
                     if Changed(before, now, rel) then WithDoc(docs, IdOf(u, rel), u.textOf(rel, now[rel].content)) else docs,
                     id)
  {
    hide IdOf, TermsOf;
    var next := if Changed(before, now, rel) then WithDoc(docs, IdOf(u, rel), u.textOf(rel, now[rel].content)) else docs;
    if Changed(before, now, rel) && IdOf(u, rel) == id {
      assert Wrote(u, before, now, done + {rel}, rel, id);
    } else {
      assert forall r :: Wrote(u, before, now, done + {rel}, r, id) <==> Wrote(u, before, now, done, r, id);
    }
  }

  lemma {:induction false} PageStep(u: Rules, before: Files, now: Files, done: set<string>,
                                    wiki0: map<string, WikiPage>, wiki: map<string, WikiPage>, rel: string, id: string)
    requires rel in now && PageIs(u, before, now, done, wiki0, wiki, id)
    ensures PageIs(u, before, now, done + {rel}, wiki0,
                   if Changed(before, now, rel) then wiki[IdOf(u, rel) := WikiPage(rel, now[rel].content)] else wiki, id)
  {
    hide IdOf;
    if Changed(before, now, rel) && IdOf(u, rel) == id {
      assert Wrote(u, before, now, done + {rel}, rel, id);
    } else {
      assert forall r :: Wrote(u, before, now, done + {rel}, r, id) <==> Wrote(u, before, now, done, r, id);
    }
  }

  /** Every record and every wiki page after part of a walk. */
  ghost predicate WalkIs(u: Rules, before: Files, now: Files, done: set<string>,
                         docs0: map<string, set<string>>, docs: map<string, set<string>>,
                         wiki0: map<string, WikiPage>, wiki: map<string, WikiPage>) {
    forall id :: RecordIs(u, before, now, done, docs0, docs, id) && PageIs(u, before, now, done, wiki0, wiki, id)
  }

  lemma {:induction false} WalkStep(u: Rules, before: Files, now: Files, left: set<string>,
                                    docs0: map<string, set<string>>, docs: map<string, set<string>>,
                                    wiki0: map<string, WikiPage>, wiki: map<string, WikiPage>, rel: string)
    requires rel in left && left <= now.Keys && WalkIs(u, before, now, now.Keys - left, docs0, docs, wiki0, wiki)
    ensures var changed := Changed(before, now, rel);
            WalkIs(u, before, now, now.Keys - (left - {rel}),
                   docs0, if changed then WithDoc(docs, IdOf(u, rel), u.textOf(rel, now[rel].content)) else docs,
                   wiki0, if changed then wiki[IdOf(u, rel) := WikiPage(rel, now[rel].content)] else wiki)
  {
    hide IdOf, TermsOf, RecordIs, PageIs, WithDoc, Changed;
    var done := now.Keys - left;
    var more := now.Keys - (left - {rel});
    assert more == done + {rel};
    var docs1 := if Changed(before, now, rel) then WithDoc(docs, IdOf(u, rel), u.textOf(rel, now[rel].content)) else docs;
    var wiki1 := if Changed(before, now, rel) then wiki[IdOf(u, rel) := WikiPage(rel, now[rel].content)] else wiki;
    forall id
      ensures RecordIs(u, before, now, more, docs0, docs1, id) && PageIs(u, before, now, more, wiki0, wiki1, id)
    {
      RecordStep(u, before, now, done, docs0, docs, rel, id);
      PageStep(u, before, now, done, wiki0, wiki, rel, id);
    }
  }

  /** Some file that is gone had this id. */
  ghost predicate Clash(u: Rules, before: Files, now: Files, id: string) {
    exists rel :: rel in before && rel !in now && IdOf(u, rel) == id
  }

  /** The records after the files `gone` were dropped. */
  ghost predicate DropIs(u: Rules, gone: set<string>, docs0: map<string, set<string>>, docs: map<string, set<string>>) {
    forall id :: if DropsId(u, gone, id) then id !in docs else SameAt(docs0, docs, id)
  }

  ghost predicate DropsId(u: Rules, gone: set<string>, id: string) {
    exists rel :: rel in gone && IdOf(u, rel) == id
  }

  lemma {:induction false} DropStep(u: Rules, gone: set<string>, docs0: map<string, set<string>>,
                                    docs: map<string, set<string>>, rel: string)
    requires DropIs(u, gone, docs0, docs)
    ensures DropIs(u, gone + {rel}, docs0, WithoutDoc(docs, IdOf(u, rel)))
  {
    hide IdOf;
    forall id
      ensures DropsId(u, gone + {rel}, id) <==> DropsId(u, gone, id) || id == IdOf(u, rel)
    {
      if DropsId(u, gone, id) {
        var r :| r in gone && IdOf(u, r) == id;
        assert r in gone + {rel};
      }
      if id == IdOf(u, rel) {
        assert rel in gone + {rel};
      }
    }
  }

  /** The records of a file after a sync: whether it has one, exactly. */
  ghost predicate HasRecord(u: Rules, before: Files, now: Files, docs0: map<string, set<string>>, rel: string)
    requires rel in now
  {
    !Clash(u, before, now, IdOf(u, rel)) && (Changed(before, now, rel) || IdOf(u, rel) in docs0)
  }

  /** What a sync does to the records, from the state before to the state after. */
  ghost predicate RecordsAre(u: Rules, before: Files, now: Files,
                             docs0: map<string, set<string>>, docs: map<string, set<string>>) {
    forall rel :: rel in now && IdOf(u, rel) != "" ==>
      (IdOf(u, rel) in docs <==> HasRecord(u, before, now, docs0, rel))
  }

  lemma {:induction false} SyncMeans(u: Rules, before: Files, now: Files,
                                     docs0: map<string, set<string>>, docs1: map<string, set<string>>,
                                     docs: map<string, set<string>>,
                                     wiki0: map<string, WikiPage>, wiki: map<string, WikiPage>)
    requires OneIdEach(u, before) && OneIdEach(u, now) && HonestStamps(before, now)
    requires Sound(u, docs0, before) && InWiki(u, wiki0, before)
    requires WalkIs(u, before, now, now.Keys, docs0, docs1, wiki0, wiki)
    requires DropIs(u, before.Keys - now.Keys, docs1, docs)
    ensures Sound(u, docs, now) && InWiki(u, wiki, now) && RecordsAre(u, before, now, docs0, docs)
  {
    hide IdOf, TermsOf;
    forall id | id in docs
      ensures SoundAt(u, docs, now, id)
    {
      SyncSound(u, before, now, docs0, docs1, docs, wiki0, wiki, id);
    }
    forall rel | rel in now
      ensures IdOf(u, rel) in wiki && wiki[IdOf(u, rel)] == WikiPage(rel, now[rel].content)
      ensures IdOf(u, rel) != "" ==> (IdOf(u, rel) in docs <==> HasRecord(u, before, now, docs0, rel))
    {
      SyncFile(u, before, now, docs0, docs1, docs, wiki0, wiki, rel);
    }
  }

  lemma {:induction false} SyncSound(u: Rules, before: Files, now: Files,
                                     docs0: map<string, set<string>>, docs1: map<string, set<string>>,
                                     docs: map<string, set<string>>,
                                     wiki0: map<string, WikiPage>, wiki: map<string, WikiPage>, id: string)
    requires HonestStamps(before, now) && Sound(u, docs0, before) && id in docs
    requires WalkIs(u, before, now, now.Keys, docs0, docs1, wiki0, wiki)
    requires DropIs(u, before.Keys - now.Keys, docs1, docs)
    ensures SoundAt(u, docs, now, id)
  {
    hide IdOf, TermsOf;
    assert SameAt(docs1, docs, id);
    assert RecordIs(u, before, now, now.Keys, docs0, docs1, id);
    if rel :| Wrote(u, before, now, now.Keys, rel, id) && docs1[id] == FileTerms(u, now, rel) && id != "" {
    } else {
      assert id in docs0 && SoundAt(u, docs0, before, id);
      var rel :| rel in before && IdOf(u, rel) == id && docs0[id] == FileTerms(u, before, rel);
      assert rel in now by {
        assert !DropsId(u, before.Keys - now.Keys, id);
        assert rel !in now ==> rel in before.Keys - now.Keys;
      }
      assert Changed(before, now, rel) ==> Wrote(u, before, now, now.Keys, rel, id);
    }
  }

  lemma {:induction false} SyncFile(u: Rules, before: Files, now: Files,
                                    docs0: map<string, set<string>>, docs1: map<string, set<string>>,
                                    docs: map<string, set<string>>,
                                    wiki0: map<string, WikiPage>, wiki: map<string, WikiPage>, rel: string)
    requires OneIdEach(u, now) && HonestStamps(before, now) && InWiki(u, wiki0, before) && rel in now
    requires WalkIs(u, before, now, now.Keys, docs0, docs1, wiki0, wiki)
    requires DropIs(u, before.Keys - now.Keys, docs1, docs)
    ensures IdOf(u, rel) in wiki && wiki[IdOf(u, rel)] == WikiPage(rel, now[rel].content)
    ensures IdOf(u, rel) != "" ==> (IdOf(u, rel) in docs <==> HasRecord(u, before, now, docs0, rel))
  {
    hide IdOf, TermsOf;
    var id := IdOf(u, rel);
    var all := now.Keys;
    assert RecordIs(u, before, now, all, docs0, docs1, id) && PageIs(u, before, now, all, wiki0, wiki, id);
    assert forall r :: Wrote(u, before, now, all, r, id) ==> r == rel;
    assert Changed(before, now, rel) ==> Wrote(u, before, now, all, rel, id);
    assert !Changed(before, now, rel) ==> now[rel].content == before[rel].content;
    assert if DropsId(u, before.Keys - all, id) then id !in docs else SameAt(docs1, docs, id);
    DropsClash(u, before, now, id);
  }

  lemma {:induction false} DropsClash(u: Rules, before: Files, now: Files, id: string)
    ensures DropsId(u, before.Keys - now.Keys, id) <==> Clash(u, before, now, id)
  {
    hide IdOf;
    if r :| r in before.Keys - now.Keys && IdOf(u, r) == id {
      assert r in before && r !in now;
    }
    if r :| r in before && r !in now && IdOf(u, r) == id {
      assert r in before.Keys - now.Keys;
    }
  }

  /** No file that is gone had a nonempty id that a present file has. */
  ghost predicate NoClash(u: Rules, before: Files, now: Files) {
    forall rel :: rel in now && IdOf(u, rel) != "" ==> !Clash(u, before, now, IdOf(u, rel))
  }

  /** A complete index stays complete exactly when no id passes from a removed file to a present one:
      the walk writes the record of the present file first, and the removal then takes it away. */
  lemma {:induction false} CompleteIffNoClash(u: Rules, before: Files, now: Files,
                                              docs0: map<string, set<string>>, docs: map<string, set<string>>)
    requires Complete(u, docs0, before) && RecordsAre(u, before, now, docs0, docs)
    ensures Complete(u, docs, now) <==> NoClash(u, before, now)
  {
    hide IdOf, Clash;
  }

  // ---------- the index ----------

  /** What `WikiStore` keeps for a file. */
  datatype WikiPage = WikiPage(rel: string, content: string)

  datatype Stats = Stats(upserted: nat, skipped: nat, total: nat, removed: nat)

  const RECALL_CANDIDATE_CAP := 64

  class KnowledgeIndex {
    const rules: Rules
    const inverted: InvertedIndex
    var wiki: map<string, WikiPage>
    var checkpoint: seq<FileCheckpoint>
    /** The files as they were when the checkpoint was written. */
    ghost var synced: Files

    /** The checkpoint is that of the files, pages are current, and records are of current files. */
    ghost predicate Valid()
      reads this, inverted
    {
      && inverted.Valid()
      && Recorded(checkpoint, synced)
      && OneIdEach(rules, synced)
      && InWiki(rules, wiki, synced)
      && Sound(rules, inverted.docTerms, synced)
    }

    constructor (rules: Rules)
      ensures Valid() && synced == map[] && fresh(inverted) && this.rules == rules
      ensures inverted.docTerms == map[]
    {
      this.rules := rules;
      inverted := new InvertedIndex();
      wiki, checkpoint, synced := map[], [], map[];
    }

    /** One file of the walk. */
    method IndexFile(rel: string, file: File) returns (indexed: bool)
      requires inverted.Valid()
      modifies this`wiki, this`checkpoint, inverted
      ensures inverted.Valid()
      ensures indexed == NeedsReindex(old(checkpoint), rel, file.stamp)
      ensures checkpoint == if indexed then Updated(old(checkpoint), rel, file.stamp) else old(checkpoint)
      ensures inverted.docTerms == if indexed then
                                     WithDoc(old(inverted.docTerms), IdOf(rules, rel), rules.textOf(rel, file.content))
                                   else old(inverted.docTerms)
      ensures wiki == if indexed then old(wiki)[IdOf(rules, rel) := WikiPage(rel, file.content)] else old(wiki)
    {
      hide IdOf, TermsOf, StampOf;
      indexed := NeedsReindex(checkpoint, rel, file.stamp);
      if indexed {
        wiki := wiki[IdOf(rules, rel) := WikiPage(rel, file.content)];
        inverted.Insert(IdOf(rules, rel), rules.textOf(rel, file.content));
        checkpoint := Updated(checkpoint, rel, file.stamp);
      }
    }

    /** The walk over the pages, in whatever order the file system lists them. */
    method IndexPages(pages: Files) returns (upserted: nat, skipped: nat)
      requires inverted.Valid() && Recorded(checkpoint, synced)
      modifies this`wiki, this`checkpoint, inverted
      ensures inverted.Valid() && Recorded(checkpoint, synced + pages)
      ensures upserted + skipped == |pages|
      ensures WalkIs(rules, synced, pages, pages.Keys, old(inverted.docTerms), inverted.docTerms, old(wiki), wiki)
    {
      hide IdOf, TermsOf, WalkIs, Recorded, WithDoc, Walked, Changed, Updated;
      upserted, skipped := 0, 0;
      var left := pages.Keys;
      NothingWalked(rules, synced, pages, inverted.docTerms, wiki);
      while left != {}
        invariant left <= pages.Keys && upserted + skipped + |left| == |pages|
        invariant inverted.Valid() && Recorded(checkpoint, Walked(synced, pages, left))
        invariant WalkIs(rules, synced, pages, pages.Keys - left, old(inverted.docTerms), inverted.docTerms, old(wiki), wiki)
        decreases left
      {
        var rel :| rel in left;
        RecordedStep(checkpoint, synced, pages, left, rel);
        WalkStep(rules, synced, pages, left, old(inverted.docTerms), inverted.docTerms, old(wiki), wiki, rel);
        var indexed := IndexFile(rel, pages[rel]);
        if indexed {
          upserted := upserted + 1;
        } else {
          skipped := skipped + 1;
        }
        left := left - {rel};
      }
      assert pages.Keys - left == pages.Keys;
      AllWalked(synced, pages);
    }

    /** Removes the checkpoints of files that were not seen. */
    method DropCheckpoints(pages: Files) returns (gone: seq<string>)
      requires Recorded(checkpoint, synced + pages)
      modifies this`checkpoint
      ensures Elements(gone) == synced.Keys - pages.Keys
      ensures Recorded(checkpoint, pages)
    {
      gone := Gone(checkpoint, pages.Keys);
      KeptStamps(checkpoint, pages.Keys);
      forall rel
        ensures rel in gone <==> rel in synced && rel !in pages
      {
        assert StampOf(checkpoint, rel).Some? <==> rel in synced + pages;
      }
      checkpoint := Kept(checkpoint, pages.Keys);
    }

    /** Drops the records of files that are gone. */
    method DropRecords(gone: seq<string>)
      requires inverted.Valid()
      modifies inverted
      ensures inverted.Valid() && DropIs(rules, Elements(gone), old(inverted.docTerms), inverted.docTerms)
    {
      hide IdOf, DropIs, WithoutDoc;
      NothingDropped(rules, inverted.docTerms);
      for i := 0 to |gone|
        invariant inverted.Valid() && DropIs(rules, Elements(gone[..i]), old(inverted.docTerms), inverted.docTerms)
      {
        DropStep(rules, Elements(gone[..i]), old(inverted.docTerms), inverted.docTerms, gone[i]);
        assert gone[..i + 1] == gone[..i] + [gone[i]];
        ElementsPush(gone[..i], gone[i]);
        inverted.Remove(IdOf(rules, gone[i]));
      }
      assert gone[..|gone|] == gone;
    }

    /** Brings the index up to date with the files below the root; without a root nothing is done. */
    method Sync(root: Option<Files>) returns (stats: Stats)
      requires Valid()
      requires root.Some? ==> OneIdEach(rules, Pages(root.value)) && HonestStamps(synced, Pages(root.value))
      modifies this`wiki, this`checkpoint, this`synced, inverted
      ensures Valid() && synced == if root.Some? then Pages(root.value) else old(synced)
      ensures root.None? ==> inverted.docTerms == old(inverted.docTerms)
      ensures root.Some? ==> RecordsAre(rules, old(synced), synced, old(inverted.docTerms), inverted.docTerms)
      ensures root.Some? && old(Complete(rules, inverted.docTerms, synced)) ==>
                (Mirrors(rules, inverted.docTerms, synced) <==> NoClash(rules, old(synced), synced))
      ensures root.Some? ==> stats.total == |Pages(root.value)| == stats.upserted + stats.skipped
    {
      hide IdOf, TermsOf, IsPage, WalkIs, DropIs, Recorded, OneIdEach, HonestStamps, InWiki, Sound, RecordsAre, Complete,
           NoClash, Elements;
      if root.None? {
        return Stats(0, 0, 0, 0);
      }
      var pages := Pages(root.value);
      ghost var docs0, wiki0 := inverted.docTerms, wiki;
      var upserted, skipped := IndexPages(pages);
      ghost var docs1 := inverted.docTerms;
      var gone := DropCheckpoints(pages);
      DropRecords(gone);
      SyncMeans(rules, synced, pages, docs0, docs1, inverted.docTerms, wiki0, wiki);
      if Complete(rules, docs0, synced) {
        CompleteIffNoClash(rules, synced, pages, docs0, inverted.docTerms);
      }
      synced := pages;
      stats := Stats(upserted, skipped, |pages|, |gone|);
    }

    /** The pages found for a query, best first, cut at the cap and the caller's limit: each is the
        current page of a file whose record shares a term with the query. */
    method Recall(query: string, limit: nat) returns (found: seq<WikiPage>)
      requires Valid()
      ensures exists ids :: Found(inverted.docTerms, TermsOf(query), ids)
                && |found| == Min(Min(|ids|, RECALL_CANDIDATE_CAP), limit)
                && forall k :: 0 <= k < |found| ==> IsCurrent(rules, synced, found[k], ids[k])
    {
      hide IdOf, TermsOf, Recorded;
      var ids := inverted.Candidates(query);
      FoundHaveFiles(rules, inverted.docTerms, TermsOf(query), ids, synced);
      found := [];
      while |found| < limit && |found| < |ids| && |found| < RECALL_CANDIDATE_CAP
        invariant |found| <= Min(Min(|ids|, RECALL_CANDIDATE_CAP), limit)
        invariant forall k :: 0 <= k < |found| ==> IsCurrent(rules, synced, found[k], ids[k])
      {
        var id := ids[|found|];
        assert HasFile(rules, synced, id);
        ghost var rel :| rel in synced && IdOf(rules, rel) == id;
        found := found + [wiki[id]];
      }
    }
  }

  /** The checkpoint lists exactly these files, each once, with its stamp. */
  ghost predicate Recorded(checkpoint: seq<FileCheckpoint>, files: Files) {
    && OncePerFile(checkpoint)
    && forall rel :: StampOf(checkpoint, rel) == if rel in files then Some(files[rel].stamp) else None
  }

  ghost predicate InWiki(u: Rules, wiki: map<string, WikiPage>, files: Files) {
    forall rel :: rel in files ==> IdOf(u, rel) in wiki && wiki[IdOf(u, rel)] == WikiPage(rel, files[rel].content)
  }

  ghost function Walked(before: Files, pages: Files, left: set<string>): Files {
    before + (pages - left)
  }

  lemma {:induction false} NothingWalked(u: Rules, before: Files, pages: Files, docs: map<string, set<string>>,
                                         wiki: map<string, WikiPage>)
    ensures Walked(before, pages, pages.Keys) == before && |pages.Keys| == |pages|
    ensures WalkIs(u, before, pages, pages.Keys - pages.Keys, docs, docs, wiki, wiki)
  {
    hide IdOf, FileTerms;
    assert pages - pages.Keys == map[];
  }

  lemma {:induction false} AllWalked(before: Files, pages: Files)
    ensures Walked(before, pages, {}) == before + pages
  {
    assert pages - {} == pages;
  }

  lemma {:induction false} RecordedStep(checkpoint: seq<FileCheckpoint>, before: Files, pages: Files, left: set<string>,
                                        rel: string)
    requires rel in left && left <= pages.Keys && Recorded(checkpoint, Walked(before, pages, left))
    ensures NeedsReindex(checkpoint, rel, pages[rel].stamp) == Changed(before, pages, rel)
    ensures Recorded(if Changed(before, pages, rel) then Updated(checkpoint, rel, pages[rel].stamp) else checkpoint,
                     Walked(before, pages, left - {rel}))
  {
    hide StampOf, OncePerFile, Updated;
    UpdatedStamps(checkpoint, rel, pages[rel].stamp);
    var cur, next := Walked(before, pages, left), Walked(before, pages, left - {rel});
    assert forall r :: r != rel ==> (r in next <==> r in cur) && (r in cur ==> next[r] == cur[r]);
  }

  lemma {:induction false} NothingDropped(u: Rules, docs: map<string, set<string>>)
    ensures DropIs(u, Elements([]), docs, docs)
  {
  }

  function Min(a: nat, b: nat): nat {
    if a <= b then a else b
  }

  ghost predicate HasFile(u: Rules, files: Files, id: string) {
    exists rel :: rel in files && IdOf(u, rel) == id
  }

  /** The page of a file that is there, as it is now. */
  ghost predicate IsCurrent(u: Rules, files: Files, page: WikiPage, id: string) {
    page.rel in files && IdOf(u, page.rel) == id && page.content == files[page.rel].content
  }

  lemma {:induction false} FoundHaveFiles(u: Rules, docs: map<string, set<string>>, terms: set<string>, ids: seq<string>,
                                          files: Files)
    requires Found(docs, terms, ids) && Sound(u, docs, files)
    ensures forall k :: 0 <= k < |ids| ==> HasFile(u, files, ids[k])
  {
    hide IdOf, TermsOf;
    forall k | 0 <= k < |ids|
      ensures HasFile(u, files, ids[k])
    {
      assert ids[k] in ids;
      assert SoundAt(u, docs, files, ids[k]);
    }
  }
}
