/** Runs of syncs: when the knowledge index holds exactly the files that are there. */
module KnowledgeRuns {
  import opened Options
  import opened Knowledge

  type Docs = map<string, set<string>>

  function FilesBefore(history: seq<Files>, k: nat): Files
    requires k <= |history|
  {
    if k == 0 then map[] else Pages(history[k - 1])
  }

  function DocsBefore(records: seq<Docs>, k: nat): Docs
    requires k <= |records|
  {
    if k == 0 then map[] else records[k - 1]
  }

  /** Each state of the files has distinct page ids, and from one sync to the next a file whose time
      and size are as they were has its content as it was. */
  ghost predicate Orderly(u: Rules, history: seq<Files>) {
    forall k :: 0 <= k < |history| ==>
      OneIdEach(u, Pages(history[k])) && HonestStamps(FilesBefore(history, k), Pages(history[k]))
  }

  /** What each sync of a run leaves behind. */
  ghost predicate Trace(u: Rules, history: seq<Files>, records: seq<Docs>) {
    && |records| == |history|
    && forall k :: 0 <= k < |history| ==> TraceAt(u, history, records, k)
  }

  ghost predicate TraceAt(u: Rules, history: seq<Files>, records: seq<Docs>, k: nat)
    requires k < |history| && k < |records|
  {
    && Sound(u, records[k], Pages(history[k]))
    && RecordsAre(u, FilesBefore(history, k), Pages(history[k]), DocsBefore(records, k), records[k])
  }

  /** A trace of the first syncs of a run. */
  ghost predicate TraceSoFar(u: Rules, history: seq<Files>, records: seq<Docs>) {
    && |records| <= |history|
    && forall k :: 0 <= k < |records| ==> TraceAt(u, history, records, k)
  }

  lemma {:induction false} TraceGrows(u: Rules, history: seq<Files>, records: seq<Docs>, docs: Docs)
    requires TraceSoFar(u, history, records) && |records| < |history|
    requires var k := |records|;
             && Sound(u, docs, Pages(history[k]))
             && RecordsAre(u, FilesBefore(history, k), Pages(history[k]), DocsBefore(records, k), docs)
    ensures TraceSoFar(u, history, records + [docs])
  {
    hide Pages, Sound, RecordsAre;
    var longer := records + [docs];
    forall k | 0 <= k < |longer|
      ensures TraceAt(u, history, longer, k)
    {
      assert k < |records| ==> TraceAt(u, history, records, k);
    }
  }

  /** Between syncs files may come, change, move and go; `records` are the index's records after
      each sync. */
  method SyncEach(history: seq<Files>, rules: Rules) returns (index: KnowledgeIndex, records: seq<Docs>)
    requires Orderly(rules, history)
    ensures index.Valid() && index.rules == rules
    ensures index.synced == FilesBefore(history, |history|)
    ensures Trace(rules, history, records) && index.inverted.docTerms == DocsBefore(records, |records|)
  {
    hide Pages, OneIdEach, HonestStamps, Sound, RecordsAre, TraceAt, Complete, NoClash, Recorded, InWiki;
    index := new KnowledgeIndex(rules);
    records := [];
    for i := 0 to |history|
      invariant index.Valid() && index.rules == rules && fresh(index) && fresh(index.inverted)
      invariant index.synced == FilesBefore(history, i)
      invariant |records| == i && index.inverted.docTerms == DocsBefore(records, i)
      invariant TraceSoFar(rules, history, records)
    {
      var stats := index.Sync(Some(history[i]));
      TraceGrows(rules, history, records, index.inverted.docTerms);
      records := records + [index.inverted.docTerms];
    }
  }

  ghost predicate MirrorsEach(u: Rules, history: seq<Files>, records: seq<Docs>, n: nat)
    requires n <= |history| && n <= |records|
  {
    forall k :: 0 <= k < n ==> Mirrors(u, records[k], Pages(history[k]))
  }

  ghost predicate ClashFree(u: Rules, history: seq<Files>, n: nat)
    requires n <= |history|
  {
    forall k :: 0 <= k < n ==> NoClash(u, FilesBefore(history, k), Pages(history[k]))
  }

  lemma {:induction false} MirrorsUpTo(u: Rules, history: seq<Files>, records: seq<Docs>, n: nat)
    requires Trace(u, history, records) && n <= |history|
    ensures MirrorsEach(u, history, records, n) <==> ClashFree(u, history, n)
  {
    hide Pages, Sound, RecordsAre, Complete, NoClash;
    if n > 0 {
      var k := n - 1;
      MirrorsUpTo(u, history, records, k);
      assert TraceAt(u, history, records, k);
      assert MirrorsEach(u, history, records, n) <==>
             MirrorsEach(u, history, records, k) && Complete(u, records[k], Pages(history[k]));
      assert ClashFree(u, history, n) <==>
             ClashFree(u, history, k) && NoClash(u, FilesBefore(history, k), Pages(history[k]));
      if MirrorsEach(u, history, records, k) {
        EmptyIsComplete(u);
        assert k > 0 ==> Mirrors(u, records[k - 1], Pages(history[k - 1]));
        CompleteIffNoClash(u, FilesBefore(history, k), Pages(history[k]), DocsBefore(records, k), records[k]);
      }
    }
  }

  lemma {:induction false} EmptyIsComplete(u: Rules)
    ensures Complete(u, map[], map[])
  {
  }

  /** After every sync of a run the index holds exactly the records of the files that are there, if
      and only if no sync sees a nonempty id pass from a file that is gone to one that is there. */
  lemma {:induction false} AlwaysMirrorsIff(u: Rules, history: seq<Files>, records: seq<Docs>)
    requires Trace(u, history, records)
    ensures MirrorsEach(u, history, records, |history|) <==> ClashFree(u, history, |history|)
  {
    MirrorsUpTo(u, history, records, |history|);
  }

  // ---------- a page that moves ----------

  const OLD_PLACE := "notes/a.md"
  const NEW_PLACE := "notes_a.md"

  lemma {:induction false} OldPlaceName()
    ensures FileName(OLD_PLACE) == "a.md"
  {
    assert OLD_PLACE == "notes/a.md";
    hide *;
    AfterSlash("notes");
    NextLetter("notes/", 'a');
    NextLetter("notes/a", '.');
    NextLetter("notes/a.", 'm');
    NextLetter("notes/a.m", 'd');
    assert "notes" + "/" == "notes/" && "notes/" + ['a'] == "notes/a" && "notes/a" + ['.'] == "notes/a.";
    assert "notes/a." + ['m'] == "notes/a.m" && "notes/a.m" + ['d'] == OLD_PLACE;
    assert "" + ['a'] == "a" && "a" + ['.'] == "a." && "a." + ['m'] == "a.m" && "a.m" + ['d'] == "a.md";
  }

  lemma {:induction false} AfterSlash(dir: string)
    ensures FileName(dir + "/") == ""
  {
  }

  lemma {:induction false} NextLetter(rel: string, c: char)
    requires c != '/'
    ensures FileName(rel + [c]) == FileName(rel) + [c]
  {
    assert (rel + [c])[..|rel|] == rel;
  }

  lemma {:induction false} PlacesArePages()
    ensures IsPage(OLD_PLACE) && IsPage(NEW_PLACE)
  {
    hide FileName;
    OldPlaceName();
    NoSlash(NEW_PLACE);
    assert "a.md"[1..] == EXTENSION && NEW_PLACE[7..] == EXTENSION;
    assert OLD_PLACE[0] != REVIEW[0] && NEW_PLACE[0] != REVIEW[0];
  }

  lemma {:induction false} PlacesTrimmed()
    ensures TrimExtension(OLD_PLACE) == "notes/a" && TrimExtension(NEW_PLACE) == "notes_a"
  {
    assert OLD_PLACE[7..] == EXTENSION && NEW_PLACE[7..] == EXTENSION;
    assert OLD_PLACE[..7] == "notes/a" && NEW_PLACE[..7] == "notes_a";
    NotTrimmed("notes/a");
    NotTrimmed("notes_a");
  }

  lemma {:induction false} NotTrimmed(s: string)
    requires s != [] && s[|s| - 1] == 'a'
    ensures TrimExtension(s) == s
  {
    assert |s| >= 3 ==> s[|s| - 3..][2] == 'a';
  }

  /** Both places of the page have one id, since a slash is written as an underscore. */
  lemma {:induction false} PlacesShareId(u: Rules)
    requires !u.alnum('/')
    ensures IsPage(OLD_PLACE) && IsPage(NEW_PLACE)
    ensures IdOf(u, OLD_PLACE) == IdOf(u, NEW_PLACE) != ""
  {
    hide IsPage, TrimExtension;
    PlacesArePages();
    PlacesTrimmed();
    var a, b := Sanitize("notes/a", u.alnum), Sanitize("notes_a", u.alnum);
    forall i | 0 <= i < 7
      ensures a[i] == b[i]
    {
      assert i != 5 ==> "notes/a"[i] == "notes_a"[i];
    }
  }

  lemma {:induction false} NoSlash(rel: string)
    requires '/' !in rel
    ensures FileName(rel) == rel
  {
    if rel != [] {
      NoSlash(rel[..|rel| - 1]);
    }
  }

  /** A moved page is a clash, although each state of the files has distinct ids. */
  lemma {:induction false} MoveClashes(u: Rules, file: File)
    requires !u.alnum('/')
    ensures Orderly(u, [map[OLD_PLACE := file], map[NEW_PLACE := file]])
    ensures !NoClash(u, map[OLD_PLACE := file], map[NEW_PLACE := file])
  {
    hide IdOf, IsPage;
    PlacesShareId(u);
    assert OLD_PLACE[5] != NEW_PLACE[5];
    assert Clash(u, map[OLD_PLACE := file], map[NEW_PLACE := file], IdOf(u, NEW_PLACE));
  }

  /** The run itself: after the second sync the page is there, the checkpoint lists it, and the index
      has no record of it. */
  method MovePage(rules: Rules, file: File) returns (index: KnowledgeIndex)
    requires !rules.alnum('/')
    ensures index.Valid() && index.rules == rules && index.synced == map[NEW_PLACE := file]
    ensures IdOf(rules, NEW_PLACE) != "" && IdOf(rules, NEW_PLACE) !in index.inverted.docTerms
  {
    hide IdOf, Sound, IsPage;
    var before, now := map[OLD_PLACE := file], map[NEW_PLACE := file];
    var history := [before, now];
    PlacesShareId(rules);
    MoveClashes(rules, file);
    assert Pages(before) == before && Pages(now) == now;
    var records;
    index, records := SyncEach(history, rules);
    assert TraceAt(rules, history, records, 1);
    assert FilesBefore(history, 1) == before && OLD_PLACE !in now by {
      assert OLD_PLACE[5] != NEW_PLACE[5];
    }
    assert Clash(rules, before, now, IdOf(rules, NEW_PLACE));
  }
}
