/** The inverted index of `harness-capability/src/inverted.rs`. */
module Inverted {
  import opened Terms

  type Postings = map<string, set<string>>

  /** A posting lists exactly the records that hold its term, and none is empty. */
  ghost predicate Exact(docs: map<string, set<string>>, postings: Postings) {
    && (forall term, id :: Posted(postings, term, id) <==> Holds(docs, id, term))
    && (forall term :: term in postings ==> postings[term] != {})
  }

  predicate Posted(postings: Postings, term: string, id: string) {
    term in postings && id in postings[term]
  }

  predicate Holds(docs: map<string, set<string>>, id: string, term: string) {
    id in docs && term in docs[id]
  }

  /** The records decide the postings. */
  lemma {:induction false} PostingsUnique(docs: map<string, set<string>>, p: Postings, q: Postings)
    requires Exact(docs, p) && Exact(docs, q)
    ensures p == q
  {
    forall term
      ensures term in p <==> term in q
    {
      if term in p {
        var id :| id in p[term];
        assert Posted(p, term, id);
        assert Posted(q, term, id);
      }
      if term in q {
        var id :| id in q[term];
        assert Posted(q, term, id);
        assert Posted(p, term, id);
      }
    }
    forall term | term in p
      ensures p[term] == q[term]
    {
      forall id
        ensures id in p[term] <==> id in q[term]
      {
        assert Posted(p, term, id) <==> Posted(q, term, id);
      }
    }
  }

  // ---------- records over time ----------

  ghost function WithDoc(docs: map<string, set<string>>, id: string, text: string): map<string, set<string>> {
    if id == "" then docs else docs[id := TermsOf(text)]
  }

  function WithoutDoc(docs: map<string, set<string>>, id: string): map<string, set<string>> {
    docs - {id}
  }

  datatype Op = Write(id: string, text: string) | Erase(id: string)

  ghost function AfterOp(docs: map<string, set<string>>, op: Op): map<string, set<string>> {
    match op
    case Write(id, text) => WithDoc(docs, id, text)
    case Erase(id) => WithoutDoc(docs, id)
  }

  /** The records after a run of operations on an empty index. */
  ghost function After(ops: seq<Op>): map<string, set<string>> {
    if ops == [] then map[] else AfterOp(After(ops[..|ops| - 1]), ops[|ops| - 1])
  }

  ghost predicate LastOn(ops: seq<Op>, id: string, k: int) {
    0 <= k < |ops| && ops[k].id == id && forall l :: k < l < |ops| ==> ops[l].id != id
  }

  lemma {:induction false} LastOnLonger(ops: seq<Op>, op: Op, id: string, k: int)
    ensures LastOn(ops + [op], id, k) <==> if op.id == id then k == |ops| else LastOn(ops, id, k)
  {
    assert (ops + [op])[|ops|] == op;
    assert forall l :: 0 <= l < |ops| ==> (ops + [op])[l] == ops[l];
    if LastOn(ops + [op], id, k) && k < |ops| {
      assert (ops + [op])[|ops|].id != id;
    }
  }

  /** A record is present exactly when the last operation on its id wrote it, and it holds
      the terms of what was written then. The empty id is never stored. */
  lemma {:induction false} LastWriteWins(ops: seq<Op>, id: string)
    ensures id in After(ops) <==> id != "" && exists k :: LastOn(ops, id, k) && ops[k].Write?
    ensures forall k :: LastOn(ops, id, k) && ops[k].Write? && id != "" ==> After(ops)[id] == TermsOf(ops[k].text)
    decreases |ops|
  {
    hide LastOn, TermsOf;
    if ops == [] {
      assert forall k :: !LastOn(ops, id, k) by {
        NothingLast(id);
      }
    } else {
      var n := |ops| - 1;
      var before, op := ops[..n], ops[n];
      assert ops == before + [op];
      LastWriteWins(before, id);
      forall k
        ensures LastOn(ops, id, k) <==> if op.id == id then k == n else LastOn(before, id, k)
        ensures LastOn(before, id, k) ==> 0 <= k < n && before[k] == ops[k]
      {
        LastOnLonger(before, op, id, k);
        LastOnBounds(before, id, k);
      }
    }
  }

  lemma {:induction false} NothingLast(id: string)
    ensures forall k :: !LastOn([], id, k)
  {
  }

  lemma {:induction false} LastOnBounds(ops: seq<Op>, id: string, k: int)
    ensures LastOn(ops, id, k) ==> 0 <= k < |ops|
  {
  }

  // ---------- queries ----------

  ghost function Shared(docs: map<string, set<string>>, id: string, terms: set<string>): nat {
    if id in docs then |docs[id] * terms| else 0
  }

  /** More shared terms first, then by id. */
  ghost predicate Ranks(docs: map<string, set<string>>, terms: set<string>, a: string, b: string) {
    || Shared(docs, a, terms) > Shared(docs, b, terms)
    || (Shared(docs, a, terms) == Shared(docs, b, terms) && Less(a, b))
  }

  /** The ids that a scan of all records finds, best first. */
  ghost predicate Found(docs: map<string, set<string>>, terms: set<string>, ids: seq<string>) {
    && (forall id :: id in ids <==> id in docs && docs[id] * terms != {})
    && (forall i, j :: 0 <= i < j < |ids| ==> Ranks(docs, terms, ids[i], ids[j]))
  }

  lemma {:induction false} RanksAsymmetric(docs: map<string, set<string>>, terms: set<string>, a: string, b: string)
    ensures !(Ranks(docs, terms, a, b) && Ranks(docs, terms, b, a))
    ensures a != b ==> Ranks(docs, terms, a, b) || Ranks(docs, terms, b, a)
  {
    LessTotal(a, b);
  }

  lemma {:induction false} RanksTransitive(docs: map<string, set<string>>, terms: set<string>,
                                           a: string, b: string, c: string)
    requires Ranks(docs, terms, a, b) && Ranks(docs, terms, b, c)
    ensures Ranks(docs, terms, a, c)
  {
    if Less(a, b) && Less(b, c) {
      LessTransitive(a, b, c);
    }
  }

  /** There is one such list, so the index and a full scan answer alike. */
  lemma {:induction false} FoundUnique(docs: map<string, set<string>>, terms: set<string>,
                                       p: seq<string>, q: seq<string>)
    requires Found(docs, terms, p) && Found(docs, terms, q)
    ensures p == q
  {
    RankedUnique(docs, terms, p, q);
  }

  lemma {:induction false} HeadIsMember<T>(s: seq<T>)
    ensures s == [] || s[0] in s
  {
  }

  lemma {:induction false} RankedUnique(docs: map<string, set<string>>, terms: set<string>,
                                        p: seq<string>, q: seq<string>)
    requires forall id :: id in p <==> id in q
    requires forall i, j :: 0 <= i < j < |p| ==> Ranks(docs, terms, p[i], p[j])
    requires forall i, j :: 0 <= i < j < |q| ==> Ranks(docs, terms, q[i], q[j])
    ensures p == q
    decreases |p|
  {
    hide Ranks;
    HeadIsMember(q);
    if p != [] {
      assert p[0] in p;
      assert q[0] in q && p[0] in q && q[0] in p;
      var i :| 0 <= i < |q| && q[i] == p[0];
      var j :| 0 <= j < |p| && p[j] == q[0];
      RanksAsymmetric(docs, terms, p[0], q[0]);
      assert p[0] == q[0];
      forall id
        ensures id in p[1..] <==> id in q[1..]
      {
        RanksAsymmetric(docs, terms, id, id);
        assert id in p <==> id == p[0] || id in p[1..];
        assert id in q <==> id == q[0] || id in q[1..];
        assert forall k :: 0 < k < |p| ==> Ranks(docs, terms, p[0], p[k]);
        assert forall k :: 0 < k < |q| ==> Ranks(docs, terms, q[0], q[k]);
        RanksAsymmetric(docs, terms, p[0], p[0]);
      }
      RankedUnique(docs, terms, p[1..], q[1..]);
    }
  }

  // ---------- the index ----------

  class InvertedIndex {
    var postings: Postings
    var docTerms: map<string, set<string>>

    ghost predicate Valid()
      reads this
    {
      Exact(docTerms, postings)
    }

    constructor ()
      ensures Valid() && docTerms == map[]
    {
      postings, docTerms := map[], map[];
    }

    method DropPosting(term: string, id: string)
      modifies this`postings
      ensures forall t, i :: Posted(postings, t, i) <==> Posted(old(postings), t, i) && !(t == term && i == id)
      ensures (forall t :: t in old(postings) ==> old(postings)[t] != {}) ==>
                forall t :: t in postings ==> postings[t] != {}
    {
      if term in postings {
        var ids := postings[term] - {id};
        assert forall i :: i in postings[term] <==> i in ids || (i == id && id in postings[term]);
        postings := if ids == {} then postings - {term} else postings[term := ids];
      }
    }

    method AddPosting(term: string, id: string)
      modifies this`postings
      ensures forall t, i :: Posted(postings, t, i) <==> Posted(old(postings), t, i) || (t == term && i == id)
      ensures (forall t :: t in old(postings) ==> old(postings)[t] != {}) ==>
                forall t :: t in postings ==> postings[t] != {}
    {
      var ids := (if term in postings then postings[term] else {}) + {id};
      postings := postings[term := ids];
    }

    method DropPostings(terms: set<string>, id: string)
      modifies this`postings
      ensures forall t, i :: Posted(postings, t, i) <==> Posted(old(postings), t, i) && !(t in terms && i == id)
      ensures (forall t :: t in old(postings) ==> old(postings)[t] != {}) ==>
                forall t :: t in postings ==> postings[t] != {}
    {
      hide Posted;
      var left := terms;
      while left != {}
        invariant left <= terms
        invariant forall t, i :: Posted(postings, t, i) <==>
                    Posted(old(postings), t, i) && !(t in terms - left && i == id)
        invariant (forall t :: t in old(postings) ==> old(postings)[t] != {}) ==>
                    forall t :: t in postings ==> postings[t] != {}
        decreases left
      {
        var term :| term in left;
        DropPosting(term, id);
        left := left - {term};
      }
    }

    method AddPostings(terms: set<string>, id: string)
      modifies this`postings
      ensures forall t, i :: Posted(postings, t, i) <==> Posted(old(postings), t, i) || (t in terms && i == id)
      ensures (forall t :: t in old(postings) ==> old(postings)[t] != {}) ==>
                forall t :: t in postings ==> postings[t] != {}
    {
      hide Posted;
      var left := terms;
      while left != {}
        invariant left <= terms
        invariant forall t, i :: Posted(postings, t, i) <==>
                    Posted(old(postings), t, i) || (t in terms - left && i == id)
        invariant (forall t :: t in old(postings) ==> old(postings)[t] != {}) ==>
                    forall t :: t in postings ==> postings[t] != {}
        decreases left
      {
        var term :| term in left;
        AddPosting(term, id);
        left := left - {term};
      }
    }

    /** Writes a record; only postings of terms that come or go are touched. */
    method Insert(id: string, text: string)
      requires Valid()
      modifies this
      ensures Valid() && docTerms == WithDoc(old(docTerms), id, text)
    {
      hide TermsOf, Posted;
      if id == "" {
        return;
      }
      var terms := Tokenize(text);
      var next := Elements(terms);
      var prev := if id in docTerms then docTerms[id] else {};
      docTerms := docTerms[id := next];
      DropPostings(prev - next, id);
      AddPostings(next - prev, id);
      forall t, i
        ensures Posted(postings, t, i) <==> Holds(docTerms, i, t)
      {
        assert Posted(old(postings), t, i) <==> Holds(old(docTerms), i, t);
      }
    }

    method Remove(id: string)
      requires Valid()
      modifies this
      ensures Valid() && docTerms == WithoutDoc(old(docTerms), id)
    {
      hide Posted;
      if id in docTerms {
        var prev := docTerms[id];
        docTerms := docTerms - {id};
        DropPostings(prev, id);
        forall t, i
          ensures Posted(postings, t, i) <==> Holds(docTerms, i, t)
        {
          assert Posted(old(postings), t, i) <==> Holds(old(docTerms), i, t);
        }
      } else {
        assert docTerms - {id} == docTerms;
      }
    }

    method CountHits(terms: seq<string>) returns (hits: map<string, nat>)
      requires Valid() && Ascending(terms)
      ensures forall id :: id in hits <==> id in docTerms && docTerms[id] * Elements(terms) != {}
      ensures forall id :: id in hits ==> hits[id] == Shared(docTerms, id, Elements(terms))
    {
      hits := map[];
      for k := 0 to |terms|
        invariant forall id :: id in hits <==> id in docTerms && docTerms[id] * Elements(terms[..k]) != {}
        invariant forall id :: id in hits ==> hits[id] == Shared(docTerms, id, Elements(terms[..k]))
      {
        hits := HitsOfTerm(terms, k, hits);
      }
      assert terms[..|terms|] == terms;
    }

    method HitsOfTerm(terms: seq<string>, k: nat, was: map<string, nat>) returns (hits: map<string, nat>)
      requires Valid() && Ascending(terms) && k < |terms|
      requires forall id :: id in was <==> id in docTerms && docTerms[id] * Elements(terms[..k]) != {}
      requires forall id :: id in was ==> was[id] == Shared(docTerms, id, Elements(terms[..k]))
      ensures forall id :: id in hits <==> id in docTerms && docTerms[id] * Elements(terms[..k + 1]) != {}
      ensures forall id :: id in hits ==> hits[id] == Shared(docTerms, id, Elements(terms[..k + 1]))
    {
      hide Elements, Ascending;
      var term := terms[k];
      hits := was;
      var all := if term in postings then postings[term] else {};
      var left := all;
      while left != {}
        invariant left <= all
        invariant forall id :: id in hits <==> id in was || id in all - left
        invariant forall id :: id in hits ==>
                    hits[id] == (if id in was then was[id] else 0) + (if id in all - left then 1 else 0)
        decreases left
      {
        var id :| id in left;
        hits := hits[id := (if id in hits then hits[id] else 0) + 1];
        left := left - {id};
      }
      forall id
        ensures id in docTerms ==>
                  && (id in all <==> term in docTerms[id])
                  && SharedStep(docTerms[id], terms, k)
        ensures id in all ==> id in docTerms
      {
        assert Posted(postings, term, id) <==> Holds(docTerms, id, term);
        if id in docTerms {
          SharedGrows(docTerms[id], terms, k);
        }
      }
    }

    /** Every record that shares a term with the query, and nothing else, best first. */
    method Candidates(query: string) returns (ids: seq<string>)
      requires Valid()
      ensures Found(docTerms, TermsOf(query), ids)
    {
      hide TermsOf, Elements;
      var terms := Tokenize(query);
      var hits := CountHits(terms);
      ids := [];
      var left := hits.Keys;
      while left != {}
        invariant left <= hits.Keys
        invariant forall id :: id in ids <==> id in hits.Keys - left
        invariant forall i, j :: 0 <= i < j < |ids| ==> Ranks(docTerms, TermsOf(query), ids[i], ids[j])
        decreases left
      {
        var id :| id in left;
        ids := Placed(docTerms, TermsOf(query), hits, ids, id);
        left := left - {id};
      }
    }
  }

  /** What one more query term adds to the overlap with a record. */
  ghost predicate SharedStep(doc: set<string>, terms: seq<string>, k: nat)
    requires k < |terms|
  {
    && |doc * Elements(terms[..k + 1])| == |doc * Elements(terms[..k])| + (if terms[k] in doc then 1 else 0)
    && (doc * Elements(terms[..k + 1]) != {} <==> doc * Elements(terms[..k]) != {} || terms[k] in doc)
  }

  lemma {:induction false} SharedGrows(doc: set<string>, terms: seq<string>, k: nat)
    requires k < |terms| && Ascending(terms)
    ensures SharedStep(doc, terms, k)
  {
    var before, after := Elements(terms[..k]), Elements(terms[..k + 1]);
    assert terms[..k + 1] == terms[..k] + [terms[k]];
    ElementsPush(terms[..k], terms[k]);
    forall i | 0 <= i < k
      ensures terms[i] != terms[k]
    {
      LessTotal(terms[i], terms[k]);
    }
    assert terms[k] !in before;
    if terms[k] in doc {
      assert doc * after == doc * before + {terms[k]};
    } else {
      assert doc * after == doc * before;
    }
  }

  /** Sorted insertion by hit count and id. */
  method Placed(ghost docs: map<string, set<string>>, ghost terms: set<string>, hits: map<string, nat>,
                ids: seq<string>, id: string)
    returns (out: seq<string>)
    requires forall i :: i in hits ==> hits[i] == Shared(docs, i, terms)
    requires id in hits && id !in ids && forall i :: i in ids ==> i in hits
    requires forall i, j :: 0 <= i < j < |ids| ==> Ranks(docs, terms, ids[i], ids[j])
    ensures forall i :: i in out <==> i in ids || i == id
    ensures forall i, j :: 0 <= i < j < |out| ==> Ranks(docs, terms, out[i], out[j])
  {
    var at := 0;
    while at < |ids| && (hits[ids[at]] > hits[id] || (hits[ids[at]] == hits[id] && Less(ids[at], id)))
      invariant 0 <= at <= |ids|
      invariant forall i :: 0 <= i < at ==> Ranks(docs, terms, ids[i], id)
    {
      at := at + 1;
    }
    out := ids[..at] + [id] + ids[at..];
    forall i | at <= i < |ids|
      ensures Ranks(docs, terms, id, ids[i])
    {
      RanksAsymmetric(docs, terms, id, ids[at]);
      if i > at {
        RanksTransitive(docs, terms, id, ids[at], ids[i]);
      }
    }
  }
}
