/** The facts of `NativeConversationMemory` and the recall index kept beside them
    (`harness-provider-memory/src/assets_native.rs`). */
module Recall {
  import opened Options
  import opened Text
  import opened Lines
  import opened Terms
  import opened Inverted

  datatype FactKind = Fact | Preference | Decision

  datatype Layer = L0 | L1 | L2 | L3

  datatype MemoryFact = MemoryFact(
    id: string,
    kind: FactKind,
    content: string,
    layer: Layer,
    confidence: real,
    source: string)

  // ---------- the list of facts ----------

  function Retain(facts: seq<MemoryFact>, id: string): seq<MemoryFact> {
    if facts == [] then []
    else
      Retain(facts[..|facts| - 1], id)
      + if facts[|facts| - 1].id != id then [facts[|facts| - 1]] else []
  }

  function Remembered(facts: seq<MemoryFact>, fact: MemoryFact): seq<MemoryFact> {
    Retain(facts, fact.id) + [fact]
  }

  function RememberedAll(facts: seq<MemoryFact>, added: seq<MemoryFact>): seq<MemoryFact> {
    if added == [] then facts else Remembered(RememberedAll(facts, added[..|added| - 1]), added[|added| - 1])
  }

  // ---------- the index a list stands for ----------

  /** `build_index`: the terms of every fact, later facts replacing earlier ones of the same id. */
  ghost function DocsOf(facts: seq<MemoryFact>, text: MemoryFact -> string): map<string, set<string>> {
    if facts == [] then map[]
    else
      var last := facts[|facts| - 1];
      WithDoc(DocsOf(facts[..|facts| - 1], text), last.id, text(last))
  }

  function ById(facts: seq<MemoryFact>): map<string, MemoryFact> {
    if facts == [] then map[]
    else
      var last := facts[|facts| - 1];
      ById(facts[..|facts| - 1])[last.id := last]
  }

  lemma {:induction false} DocsPush(facts: seq<MemoryFact>, f: MemoryFact, text: MemoryFact -> string)
    ensures DocsOf(facts + [f], text) == WithDoc(DocsOf(facts, text), f.id, text(f))
    ensures ById(facts + [f]) == ById(facts)[f.id := f]
  {
    assert (facts + [f])[..|facts|] == facts;
  }

  lemma {:induction false} DocsHaveIds(facts: seq<MemoryFact>, text: MemoryFact -> string)
    ensures "" !in DocsOf(facts, text)
    ensures DocsOf(facts, text).Keys <= ById(facts).Keys
    ensures forall id :: id in ById(facts) ==> ById(facts)[id].id == id && ById(facts)[id] in facts
  {
    if facts != [] {
      DocsHaveIds(facts[..|facts| - 1], text);
    }
  }

  lemma {:induction false} PutDrop<V>(m: map<string, V>, id: string, v: V, gone: string)
    ensures m[id := v] - {gone} == if id == gone then m - {gone} else (m - {gone})[id := v]
    ensures (m - {id})[id := v] == m[id := v]
  {
  }

  lemma {:induction false} WithDocDrop(docs: map<string, set<string>>, id: string, text: string, gone: string)
    ensures WithDoc(docs, id, text) - {gone}
            == if id == gone then docs - {gone} else WithDoc(docs - {gone}, id, text)
    ensures "" !in docs ==> WithDoc(docs - {id}, id, text) == WithDoc(docs, id, text)
  {
    hide TermsOf;
    if id != "" {
      PutDrop(docs, id, TermsOf(text), gone);
    } else {
      assert "" !in docs ==> docs - {""} == docs;
    }
  }

  /** Dropping an id from the list, however often it occurs, drops its record. */
  lemma {:induction false} RetainDocs(facts: seq<MemoryFact>, id: string, text: MemoryFact -> string)
    ensures DocsOf(Retain(facts, id), text) == DocsOf(facts, text) - {id}
    ensures ById(Retain(facts, id)) == ById(facts) - {id}
  {
    hide WithDoc;
    if facts == [] {
    } else {
      var n := |facts| - 1;
      var init, last := facts[..n], facts[n];
      RetainDocs(init, id, text);
      WithDocDrop(DocsOf(init, text), last.id, text(last), id);
      PutDrop(ById(init), last.id, last, id);
      if last.id != id {
        DocsPush(Retain(init, id), last, text);
      } else {
        assert Retain(init, id) + [] == Retain(init, id);
      }
    }
  }

  /** Storing a fact in the list is writing its record. */
  lemma {:induction false} RememberIsUpsert(facts: seq<MemoryFact>, f: MemoryFact, text: MemoryFact -> string)
    ensures DocsOf(Remembered(facts, f), text) == WithDoc(DocsOf(facts, text), f.id, text(f))
    ensures ById(Remembered(facts, f)) == ById(facts)[f.id := f]
  {
    hide WithDoc, DocsOf, ById, Retain;
    RetainDocs(facts, f.id, text);
    DocsPush(Retain(facts, f.id), f, text);
    DocsHaveIds(facts, text);
    WithDocDrop(DocsOf(facts, text), f.id, text(f), f.id);
    PutDrop(ById(facts), f.id, f, f.id);
  }

  // ---------- facts extracted from a conversation ----------

  function KindOf(content: string): FactKind {
    if Contains(content, "决定") || Contains(content, "decision") || Contains(content, "我们采用") then Decision
    else if Contains(content, "偏好") || Contains(content, "prefer") || Contains(content, "喜欢") then Preference
    else Fact
  }

  const MIN_BYTES := 24

  /** The fact a turn is worth, if it can be read and is long enough. */
  function Extracted(session: string, i: nat, turn: Option<string>): seq<MemoryFact> {
    if turn.None? || ByteLength(Trim(turn.value)) < MIN_BYTES then []
    else
      [MemoryFact("fact:" + session + ":" + Decimal(i), KindOf(turn.value), Trim(turn.value), L2, 0.7,
                  "session:" + session)]
  }

  lemma {:induction false} AtMostOne(session: string, i: nat, turn: Option<string>)
    ensures |Extracted(session, i, turn)| <= 1
  {
  }

  function ExtractedAll(session: string, turns: seq<Option<string>>): seq<MemoryFact> {
    if turns == [] then []
    else
      ExtractedAll(session, turns[..|turns| - 1])
      + Extracted(session, |turns| - 1, turns[|turns| - 1])
  }

  // ---------- the store ----------

  const CANDIDATE_CAP := 512

  function FactsFor(ids: seq<string>, byId: map<string, MemoryFact>): seq<MemoryFact> {
    if ids == [] then []
    else (if ids[0] in byId then [byId[ids[0]]] else []) + FactsFor(ids[1..], byId)
  }

  class ConversationMemory {
    /** The searchable text of a fact. */
    const text: MemoryFact -> string
    /** Facts on disk; None when they cannot be read. */
    var disk: Option<seq<MemoryFact>>
    var facts: Option<seq<MemoryFact>>
    var inverted: InvertedIndex?
    var byId: map<string, MemoryFact>

    /** The current list, read or not. */
    ghost function Facts(): seq<MemoryFact>
      reads this
    {
      if facts.Some? then facts.value else if disk.Some? then disk.value else []
    }

    /** An index that exists is the index of the current list. */
    ghost predicate Valid()
      reads this, inverted
    {
      && (facts.Some? && disk.Some? ==> disk == facts)
      && (inverted != null ==>
            && facts.Some?
            && inverted.Valid()
            && inverted.docTerms == DocsOf(Facts(), text)
            && byId == ById(Facts()))
    }

    constructor (text: MemoryFact -> string, disk: Option<seq<MemoryFact>>)
      ensures Valid() && this.text == text && inverted == null
      ensures Facts() == if disk.Some? then disk.value else []
    {
      this.text, this.disk, facts, inverted, byId := text, disk, None, null, map[];
    }

    method LoadFacts() returns (all: seq<MemoryFact>)
      requires Valid()
      modifies this`facts
      ensures Valid() && all == Facts() == old(Facts()) && facts == Some(all)
    {
      if facts.None? {
        facts := Some(if disk.Some? then disk.value else []);
      }
      all := facts.value;
    }

    /** `writable` is whether the file system lets the file be written. */
    method SaveFacts(all: seq<MemoryFact>, writable: bool) returns (ok: bool)
      modifies this`facts, this`disk
      ensures ok == writable
      ensures ok ==> facts == disk == Some(all)
      ensures !ok ==> facts == old(facts) && disk == old(disk)
    {
      ok := writable;
      if ok {
        disk := Some(all);
        facts := Some(all);
      }
    }

    method EnsureIndex()
      requires Valid()
      modifies this`facts, this`inverted, this`byId
      ensures Valid() && inverted != null && Facts() == old(Facts())
      ensures fresh(inverted) || inverted == old(inverted)
    {
      if inverted == null {
        var all := LoadFacts();
        var index := new InvertedIndex();
        var latest: map<string, MemoryFact> := map[];
        for i := 0 to |all|
          modifies index
          invariant index.Valid()
          invariant index.docTerms == DocsOf(all[..i], text) && latest == ById(all[..i])
        {
          DocsPush(all[..i], all[i], text);
          assert all[..i + 1] == all[..i] + [all[i]];
          index.Insert(all[i].id, text(all[i]));
          latest := latest[all[i].id := all[i]];
        }
        assert all[..|all|] == all;
        inverted, byId := index, latest;
      }
    }

    /** What keeps the index in step with the list, for one fact. */
    method IndexUpsert(fact: MemoryFact, ghost before: seq<MemoryFact>)
      requires inverted != null ==>
                 inverted.Valid() && inverted.docTerms == DocsOf(before, text) && byId == ById(before)
      modifies this`byId, inverted
      ensures inverted != null ==>
                && inverted.Valid()
                && inverted.docTerms == DocsOf(Remembered(before, fact), text)
                && byId == ById(Remembered(before, fact))
    {
      RememberIsUpsert(before, fact, text);
      if inverted != null {
        inverted.Insert(fact.id, text(fact));
        byId := byId[fact.id := fact];
      }
    }

    method Remember(fact: MemoryFact, writable: bool) returns (ok: bool)
      requires Valid()
      modifies this`facts, this`disk, this`byId, inverted
      ensures Valid() && ok == writable
      ensures Facts() == if ok then Remembered(old(Facts()), fact) else old(Facts())
    {
      var all := LoadFacts();
      ok := SaveFacts(Remembered(all, fact), writable);
      if ok {
        IndexUpsert(fact, all);
      }
    }

    /** The extraction loop: each fact found replaces the one of its id. */
    static method Extract(start: seq<MemoryFact>, session: string, turns: seq<Option<string>>)
      returns (all: seq<MemoryFact>, produced: seq<MemoryFact>)
      ensures produced == ExtractedAll(session, turns) && all == RememberedAll(start, produced)
    {
      hide Extracted, Remembered;
      all, produced := start, [];
      for i := 0 to |turns|
        invariant produced == ExtractedAll(session, turns[..i]) && all == RememberedAll(start, produced)
      {
        assert turns[..i + 1][..i] == turns[..i];
        var found := Extracted(session, i, turns[i]);
        AtMostOne(session, i, turns[i]);
        ghost var longer := produced + found;
        if found != [] {
          assert |longer| == |produced| + 1 && longer[..|produced|] == produced && longer[|produced|] == found[0];
          all := Remembered(all, found[0]);
        } else {
          assert longer == produced;
        }
        produced := produced + found;
      }
      assert turns[..|turns|] == turns;
    }

    method UpsertAll(produced: seq<MemoryFact>, ghost start: seq<MemoryFact>)
      requires inverted != null ==>
                 inverted.Valid() && inverted.docTerms == DocsOf(start, text) && byId == ById(start)
      modifies this`byId, inverted
      ensures inverted != null ==>
                && inverted.Valid()
                && inverted.docTerms == DocsOf(RememberedAll(start, produced), text)
                && byId == ById(RememberedAll(start, produced))
    {
      hide Remembered, DocsOf, ById;
      assert produced[..0] == [];
      for i := 0 to |produced|
        invariant inverted != null ==>
                    && inverted.Valid()
                    && inverted.docTerms == DocsOf(RememberedAll(start, produced[..i]), text)
                    && byId == ById(RememberedAll(start, produced[..i]))
      {
        assert produced[..i + 1][..i] == produced[..i];
        IndexUpsert(produced[i], RememberedAll(start, produced[..i]));
      }
      assert produced[..|produced|] == produced;
    }

    /** `turns` are the lines of the session's log, None where a line cannot be parsed. */
    method Consolidate(session: string, turns: Option<seq<Option<string>>>, writable: bool)
      returns (ok: bool, produced: seq<MemoryFact>)
      requires Valid()
      modifies this`facts, this`disk, this`byId, inverted
      ensures Valid()
      ensures turns.None? ==> ok && produced == [] && Facts() == old(Facts())
      ensures turns.Some? ==>
                && ok == writable
                && (ok ==> produced == ExtractedAll(session, turns.value))
                && Facts() == if ok then RememberedAll(old(Facts()), produced) else old(Facts())
    {
      if turns.None? {
        return true, [];
      }
      var start := LoadFacts();
      var all, found := Extract(start, session, turns.value);
      ok := SaveFacts(all, writable);
      produced := [];
      if ok {
        produced := found;
        UpsertAll(produced, start);
      }
    }

    /** The facts recall scores: those that share a term with the query, best first. */
    method CandidateFacts(query: string) returns (found: seq<MemoryFact>)
      requires Valid()
      modifies this`facts, this`inverted, this`byId
      ensures Valid() && Facts() == old(Facts())
      ensures exists ids :: Found(DocsOf(Facts(), text), TermsOf(query), ids)
                && found == FactsFor(if |ids| <= CANDIDATE_CAP then ids else ids[..CANDIDATE_CAP], ById(Facts()))
    {
      EnsureIndex();
      var ids := inverted.Candidates(query);
      found := FactsFor(if |ids| <= CANDIDATE_CAP then ids else ids[..CANDIDATE_CAP], byId);
    }
  }

  // ---------- what recall returns ----------

  /** Every candidate is the newest fact of its id, and none is lost on the way from the ids. */
  lemma {:induction false} CandidatesAreCurrent(facts: seq<MemoryFact>, text: MemoryFact -> string, terms: set<string>,
                                                ids: seq<string>)
    requires Found(DocsOf(facts, text), terms, ids)
    ensures |FactsFor(ids, ById(facts))| == |ids|
    ensures forall k :: 0 <= k < |ids| ==>
              var f := FactsFor(ids, ById(facts))[k];
              f.id == ids[k] && f in facts && NewestOf(facts, f) && TermsOf(text(f)) * terms != {}
  {
    hide Found;
    DocsHaveIds(facts, text);
    assert forall id :: id in ids ==> id in DocsOf(facts, text) && DocsOf(facts, text)[id] * terms != {} by {
      FoundAreDocs(DocsOf(facts, text), terms, ids);
    }
    AllThere(ids, ById(facts));
    forall k | 0 <= k < |ids|
      ensures var f := FactsFor(ids, ById(facts))[k];
              f.id == ids[k] && f in facts && NewestOf(facts, f) && TermsOf(text(f)) * terms != {}
    {
      assert ids[k] in ids;
      ByIdIsNewest(facts, ids[k], text);
    }
  }

  ghost predicate NewestOf(facts: seq<MemoryFact>, f: MemoryFact) {
    exists k :: 0 <= k < |facts| && facts[k] == f && forall l :: k < l < |facts| ==> facts[l].id != f.id
  }

  lemma {:induction false} FoundAreDocs(docs: map<string, set<string>>, terms: set<string>, ids: seq<string>)
    requires Found(docs, terms, ids)
    ensures forall id :: id in ids ==> id in docs && docs[id] * terms != {}
  {
  }

  lemma {:induction false} AllThere(ids: seq<string>, byId: map<string, MemoryFact>)
    requires forall id :: id in ids ==> id in byId
    ensures |FactsFor(ids, byId)| == |ids|
    ensures forall k :: 0 <= k < |ids| ==> FactsFor(ids, byId)[k] == byId[ids[k]]
  {
    if ids != [] {
      assert ids[0] in ids;
      AllThere(ids[1..], byId);
    }
  }

  lemma {:induction false} NewestLonger(facts: seq<MemoryFact>, last: MemoryFact, f: MemoryFact)
    ensures NewestOf(facts, f) && last.id != f.id ==> NewestOf(facts + [last], f)
    ensures NewestOf(facts + [last], last)
  {
    assert (facts + [last])[|facts|] == last;
    if NewestOf(facts, f) && last.id != f.id {
      var k :| 0 <= k < |facts| && facts[k] == f && forall l :: k < l < |facts| ==> facts[l].id != f.id;
      assert (facts + [last])[k] == f;
    }
  }

  lemma {:induction false} ByIdIsNewest(facts: seq<MemoryFact>, id: string, text: MemoryFact -> string)
    requires id in ById(facts)
    ensures ById(facts)[id].id == id && NewestOf(facts, ById(facts)[id])
    ensures id in DocsOf(facts, text) ==> DocsOf(facts, text)[id] == TermsOf(text(ById(facts)[id]))
  {
    hide TermsOf, NewestOf;
    var n := |facts| - 1;
    var init, last := facts[..n], facts[n];
    assert facts == init + [last];
    DocsHaveIds(facts, text);
    if last.id == id {
      NewestLonger(init, last, last);
    } else {
      ByIdIsNewest(init, id, text);
      NewestLonger(init, last, ById(init)[id]);
    }
  }
}
