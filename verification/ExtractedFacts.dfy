/** What consolidation makes of a conversation: one fact for each turn that says enough. */
module ExtractedFacts {
  import opened Options
  import opened Text
  import opened Lines
  import opened Recall

  /** A turn that can be read and is at least 24 bytes long without the white space around it. */
  predicate Worth(turn: Option<string>) {
    turn.Some? && ByteLength(Trim(turn.value)) >= 24
  }

  predicate SaysDecision(content: string) {
    Contains(content, "决定") || Contains(content, "decision") || Contains(content, "我们采用")
  }

  predicate SaysPreference(content: string) {
    Contains(content, "偏好") || Contains(content, "prefer") || Contains(content, "喜欢")
  }

  function Prefix(session: string): string {
    "fact:" + session + ":"
  }

  /** `f` is what turn `i` is worth: its text, the kind its words show, and its number in the id. */
  predicate FactOf(f: MemoryFact, session: string, i: nat, turn: string) {
    && f.content == Trim(turn)
    && (f.kind == Decision <==> SaysDecision(turn))
    && (f.kind == Preference <==> SaysPreference(turn) && !SaysDecision(turn))
    && Prefix(session) <= f.id && f.id[|Prefix(session)|..] == Decimal(i)
    && f.source == "session:" + session && f.confidence == 0.7 && f.layer == L2
  }

  /** The turns that are worth a fact, in order. */
  ghost predicate WorthAt(turns: seq<Option<string>>, at: seq<nat>) {
    && (forall k :: 0 <= k < |at| ==> at[k] < |turns| && Worth(turns[at[k]]))
    && (forall k, l :: 0 <= k < l < |at| ==> at[k] < at[l])
    && (forall i :: 0 <= i < |turns| && Worth(turns[i]) ==> i in at)
  }

  ghost predicate FactsAre(facts: seq<MemoryFact>, session: string, turns: seq<Option<string>>, at: seq<nat>)
    requires WorthAt(turns, at)
  {
    && |facts| == |at|
    && forall k :: 0 <= k < |at| ==> FactOf(facts[k], session, at[k], turns[at[k]].value)
  }

  lemma {:induction false} InLonger(at: seq<nat>, last: nat, i: nat)
    requires i in at
    ensures i in at + [last]
  {
  }

  lemma {:induction false} WorthMore(turns: seq<Option<string>>, at: seq<nat>, turn: Option<string>)
    requires WorthAt(turns, at)
    ensures WorthAt(turns + [turn], if Worth(turn) then at + [|turns|] else at)
  {
    hide Worth;
    var all, more := turns + [turn], if Worth(turn) then at + [|turns|] else at;
    forall i | 0 <= i < |turns|
      ensures all[i] == turns[i] && (i in at ==> i in more)
    {
      if Worth(turn) && i in at {
        InLonger(at, |turns|, i);
      }
    }
    if Worth(turn) {
      assert more[|at|] == |turns|;
    }
    forall k | 0 <= k < |more|
      ensures more[k] < |all| && Worth(all[more[k]])
      ensures forall l :: 0 <= l < k ==> more[l] < more[k]
    {
      if k < |at| {
        assert more[k] == at[k];
      }
    }
  }

  lemma {:induction false} OneFact(session: string, i: nat, turn: Option<string>)
    ensures Worth(turn) ==> |Extracted(session, i, turn)| == 1 && FactOf(Extracted(session, i, turn)[0], session, i, turn.value)
    ensures !Worth(turn) ==> Extracted(session, i, turn) == []
  {
    hide Contains, Trim, Decimal, ByteLength;
    if Worth(turn) {
      TailFrom(Prefix(session), Decimal(i));
    }
  }

  lemma {:induction false} FactsMore(session: string, turns: seq<Option<string>>, at: seq<nat>, turn: Option<string>)
    requires WorthAt(turns, at) && FactsAre(ExtractedAll(session, turns), session, turns, at)
    ensures var more := if Worth(turn) then at + [|turns|] else at;
            WorthAt(turns + [turn], more) && FactsAre(ExtractedAll(session, turns + [turn]), session, turns + [turn], more)
  {
    WorthMore(turns, at, turn);
    OneFact(session, |turns|, turn);
    assert (turns + [turn])[..|turns|] == turns;
    var facts, all := ExtractedAll(session, turns), turns + [turn];
    assert ExtractedAll(session, all) == facts + Extracted(session, |turns|, turn);
    hide Worth, FactOf, Extracted, ExtractedAll;
    var more := if Worth(turn) then at + [|turns|] else at;
    forall k | 0 <= k < |more|
      ensures FactOf((facts + Extracted(session, |turns|, turn))[k], session, more[k], all[more[k]].value)
    {
      assert k < |at| ==> all[at[k]] == turns[at[k]];
    }
  }

  lemma {:induction false} FactsByTurn(session: string, turns: seq<Option<string>>) returns (at: seq<nat>)
    ensures WorthAt(turns, at) && FactsAre(ExtractedAll(session, turns), session, turns, at)
    decreases |turns|
  {
    if turns == [] {
      at := [];
    } else {
      hide WorthAt, FactsAre;
      var n := |turns| - 1;
      assert turns == turns[..n] + [turns[n]];
      var before := FactsByTurn(session, turns[..n]);
      at := if Worth(turns[n]) then before + [n] else before;
      FactsMore(session, turns[..n], before, turns[n]);
    }
  }

  /** Facts of one session have ids of their own, so none overwrites another. */
  lemma {:induction false} FactIdsDiffer(session: string, turns: seq<Option<string>>)
    ensures var facts := ExtractedAll(session, turns);
            forall k, l :: 0 <= k < l < |facts| ==> facts[k].id != facts[l].id
  {
    hide ExtractedAll, Decimal, DecimalValue, ByteLength, Trim, Contains;
    var at := FactsByTurn(session, turns);
    var facts := ExtractedAll(session, turns);
    forall k, l | 0 <= k < l < |facts|
      ensures facts[k].id != facts[l].id
    {
      assert FactOf(facts[k], session, at[k], turns[at[k]].value) && FactOf(facts[l], session, at[l], turns[at[l]].value);
      DecimalRoundTrip(at[k]);
      DecimalRoundTrip(at[l]);
    }
  }
}
