/** Who is affected by a change: `callers_map` and `impact_path` of
    `harness-provider-memory/src/assets_native.rs`. */
module ImpactPaths {
  import opened Text

  datatype Symbol = Symbol(id: string, calls: seq<string>)

  type Path = seq<string>

  // ---------- callers ----------

  /** One entry for each time a symbol calls `callee`. */
  function Mentions(id: string, calls: seq<string>, callee: string): seq<string> {
    if calls == [] then []
    else Mentions(id, calls[..|calls| - 1], callee) + if calls[|calls| - 1] == callee then [id] else []
  }

  function Callers(symbols: seq<Symbol>, callee: string): seq<string> {
    if symbols == [] then []
    else
      var last := symbols[|symbols| - 1];
      Callers(symbols[..|symbols| - 1], callee) + Mentions(last.id, last.calls, callee)
  }

  ghost predicate Calls(symbols: seq<Symbol>, caller: string, callee: string) {
    exists s :: s in symbols && s.id == caller && callee in s.calls
  }

  lemma {:induction false} MentionsHas(id: string, calls: seq<string>, callee: string)
    ensures forall x :: x in Mentions(id, calls, callee) <==> x == id && callee in calls
  {
    if calls != [] {
      var n := |calls| - 1;
      MentionsHas(id, calls[..n], callee);
      assert calls == calls[..n] + [calls[n]];
    }
  }

  /** The callers of a symbol are exactly those that call it. */
  lemma {:induction false} CallersHas(symbols: seq<Symbol>, callee: string)
    ensures forall caller :: caller in Callers(symbols, callee) <==> Calls(symbols, caller, callee)
  {
    if symbols != [] {
      var n := |symbols| - 1;
      CallersHas(symbols[..n], callee);
      MentionsHas(symbols[n].id, symbols[n].calls, callee);
      assert symbols == symbols[..n] + [symbols[n]];
    }
  }

  function Listed(m: map<string, seq<string>>, callee: string): seq<string> {
    if callee in m then m[callee] else []
  }

  /** `m` is `before` with one symbol's calls noted. */
  ghost predicate Noted(before: map<string, seq<string>>, m: map<string, seq<string>>, id: string, calls: seq<string>) {
    forall callee :: Listed(m, callee) == Listed(before, callee) + Mentions(id, calls, callee)
  }

  lemma {:induction false} MentionsPush(id: string, calls: seq<string>, j: nat, callee: string)
    requires j < |calls|
    ensures Mentions(id, calls[..j + 1], callee)
            == Mentions(id, calls[..j], callee) + if calls[j] == callee then [id] else []
  {
    assert calls[..j + 1][..j] == calls[..j];
  }

  lemma {:induction false} NotedPush(before: map<string, seq<string>>, m: map<string, seq<string>>, sym: Symbol, j: nat)
    requires j < |sym.calls| && Noted(before, m, sym.id, sym.calls[..j])
    ensures Noted(before, m[sym.calls[j] := Listed(m, sym.calls[j]) + [sym.id]], sym.id, sym.calls[..j + 1])
  {
    hide Mentions;
    var callee := sym.calls[j];
    var next := m[callee := Listed(m, callee) + [sym.id]];
    forall c
      ensures Listed(next, c) == Listed(before, c) + Mentions(sym.id, sym.calls[..j + 1], c)
    {
      MentionsPush(sym.id, sym.calls, j, c);
      var noted := Mentions(sym.id, sym.calls[..j], c);
      assert Listed(m, c) == Listed(before, c) + noted;
      Assoc(Listed(before, c), noted, if callee == c then [sym.id] else []);
    }
  }

  method NoteCalls(before: map<string, seq<string>>, sym: Symbol) returns (m: map<string, seq<string>>)
    ensures Noted(before, m, sym.id, sym.calls)
  {
    m := before;
    for j := 0 to |sym.calls|
      invariant Noted(before, m, sym.id, sym.calls[..j])
    {
      hide Noted;
      NotedPush(before, m, sym, j);
      m := m[sym.calls[j] := Listed(m, sym.calls[j]) + [sym.id]];
    }
    assert sym.calls[..|sym.calls|] == sym.calls;
  }

  ghost predicate IsCallersMap(symbols: seq<Symbol>, m: map<string, seq<string>>) {
    forall callee :: Listed(m, callee) == Callers(symbols, callee)
  }

  lemma {:induction false} CallersPush(symbols: seq<Symbol>, sym: Symbol, callee: string)
    ensures Callers(symbols + [sym], callee) == Callers(symbols, callee) + Mentions(sym.id, sym.calls, callee)
  {
    assert (symbols + [sym])[..|symbols|] == symbols;
  }

  method CallersMap(symbols: seq<Symbol>) returns (m: map<string, seq<string>>)
    ensures IsCallersMap(symbols, m)
  {
    hide Mentions, Listed;
    m := map[];
    EmptyMap();
    for i := 0 to |symbols|
      invariant IsCallersMap(symbols[..i], m)
    {
      ghost var was := m;
      m := NoteCalls(m, symbols[i]);
      assert symbols[..i + 1] == symbols[..i] + [symbols[i]];
      forall callee
        ensures Listed(m, callee) == Callers(symbols[..i + 1], callee)
      {
        assert Listed(was, callee) == Callers(symbols[..i], callee);
        CallersPush(symbols[..i], symbols[i], callee);
      }
    }
    assert symbols[..|symbols|] == symbols;
  }

  lemma {:induction false} EmptyMap()
    ensures IsCallersMap([], map[])
  {
  }

  // ---------- walks ----------

  function End(path: Path): string {
    if path == [] then "" else path[|path| - 1]
  }

  function Steps(path: Path, callers: seq<string>): seq<Path> {
    if callers == [] then [] else [path + [callers[0]]] + Steps(path, callers[1..])
  }

  /** Every path, prolonged by every caller of its end. */
  function Extend(symbols: seq<Symbol>, paths: seq<Path>): seq<Path> {
    if paths == [] then []
    else Steps(paths[0], Callers(symbols, End(paths[0]))) + Extend(symbols, paths[1..])
  }

  /** All walks of `d` edges from a symbol towards its callers. */
  function Walks(symbols: seq<Symbol>, start: string, d: nat): seq<Path> {
    if d == 0 then [[start]] else Extend(symbols, Walks(symbols, start, d - 1))
  }

  lemma {:induction false} StepsHas(path: Path, callers: seq<string>)
    ensures forall p :: p in Steps(path, callers) <==> exists c :: c in callers && p == path + [c]
  {
    if callers != [] {
      StepsHas(path, callers[1..]);
      assert forall c :: c in callers <==> c == callers[0] || c in callers[1..];
    }
  }

  /** A path that continues `q` by one caller. */
  ghost predicate Continues(symbols: seq<Symbol>, p: Path, q: Path) {
    p != [] && p[..|p| - 1] == q && Calls(symbols, p[|p| - 1], End(q))
  }

  lemma {:induction false} StepsContinue(symbols: seq<Symbol>, q: Path, p: Path)
    ensures p in Steps(q, Callers(symbols, End(q))) <==> Continues(symbols, p, q)
  {
    hide Calls, Callers;
    var callers := Callers(symbols, End(q));
    StepsHas(q, callers);
    CallersHas(symbols, End(q));
    if Continues(symbols, p, q) {
      assert p == q + [p[|p| - 1]] && p[|p| - 1] in callers;
    }
    if p in Steps(q, callers) {
      var c :| c in callers && p == q + [c];
      assert p[..|p| - 1] == q;
    }
  }

  lemma {:induction false} ExtendHas(symbols: seq<Symbol>, paths: seq<Path>, p: Path)
    ensures p in Extend(symbols, paths) <==> p != [] && p[..|p| - 1] in paths && Continues(symbols, p, p[..|p| - 1])
  {
    hide Continues, Callers, Steps;
    if paths != [] {
      var q := paths[0];
      ExtendHas(symbols, paths[1..], p);
      StepsContinue(symbols, q, p);
      ContinuesFrom(symbols, p, q);
      assert paths == [q] + paths[1..];
    }
  }

  lemma {:induction false} ContinuesFrom(symbols: seq<Symbol>, p: Path, q: Path)
    ensures Continues(symbols, p, q) ==> p != [] && q == p[..|p| - 1]
  {
  }

  ghost predicate IsWalk(symbols: seq<Symbol>, start: string, p: Path) {
    if |p| < 2 then p == [start]
    else IsWalk(symbols, start, p[..|p| - 1]) && Continues(symbols, p, p[..|p| - 1])
  }

  /** A path from the symbol on in which each node calls the one in front of it. */
  ghost predicate CallerPath(symbols: seq<Symbol>, start: string, p: Path) {
    p != [] && p[0] == start && forall k :: 0 <= k < |p| - 1 ==> Calls(symbols, p[k + 1], p[k])
  }

  lemma {:induction false} WalkMeans(symbols: seq<Symbol>, start: string, p: Path)
    ensures IsWalk(symbols, start, p) <==> CallerPath(symbols, start, p)
  {
    hide Calls;
    if |p| >= 2 {
      var n := |p| - 1;
      WalkMeans(symbols, start, p[..n]);
      assert p[..n][0] == p[0] && End(p[..n]) == p[n - 1];
      if IsWalk(symbols, start, p) {
        forall k | 0 <= k < n
          ensures Calls(symbols, p[k + 1], p[k])
        {
          if k < n - 1 {
            assert Calls(symbols, p[..n][k + 1], p[..n][k]);
          }
        }
      }
      if p[0] == start && forall k :: 0 <= k < n ==> Calls(symbols, p[k + 1], p[k]) {
        forall k | 0 <= k < n - 1
          ensures Calls(symbols, p[..n][k + 1], p[..n][k])
        {
          assert Calls(symbols, p[k + 1], p[k]);
        }
        assert Calls(symbols, p[n - 1 + 1], p[n - 1]);
      }
    } else {
      assert |p| == 1 ==> (p == [start] <==> p[0] == start);
    }
  }

  /** Soundness and completeness of a level. */
  lemma {:induction false} WalksAreWalks(symbols: seq<Symbol>, start: string, d: nat, p: Path)
    ensures p in Walks(symbols, start, d) <==> |p| == d + 1 && IsWalk(symbols, start, p)
    decreases d
  {
    hide Continues, Extend;
    if d == 0 {
      assert |p| == 1 && p == [start] <==> p in [[start]];
    } else {
      ExtendHas(symbols, Walks(symbols, start, d - 1), p);
      if p != [] {
        WalksAreWalks(symbols, start, d - 1, p[..|p| - 1]);
      }
    }
  }

  // ---------- the search ----------

  const MAX_DEPTH := 5
  const MAX_PATHS := 20

  /** Walks of 1 to `d` edges, the shorter ones first. */
  function WalksUpTo(symbols: seq<Symbol>, start: string, d: nat): seq<Path> {
    if d == 0 then [] else WalksUpTo(symbols, start, d - 1) + Walks(symbols, start, d)
  }

  function Impact(symbols: seq<Symbol>, start: string): seq<Path> {
    Take(WalksUpTo(symbols, start, MAX_DEPTH), MAX_PATHS)
  }

  lemma {:induction false} NoMoreWalks(symbols: seq<Symbol>, start: string, d: nat, e: nat)
    requires d <= e && Walks(symbols, start, d) == []
    ensures Walks(symbols, start, e) == [] && WalksUpTo(symbols, start, e) == WalksUpTo(symbols, start, d)
    decreases e
  {
    if d < e {
      NoMoreWalks(symbols, start, d, e - 1);
      assert WalksUpTo(symbols, start, e - 1) + [] == WalksUpTo(symbols, start, e - 1);
    }
  }

  lemma {:induction false} LevelsGrow(symbols: seq<Symbol>, start: string, d: nat, e: nat)
    requires d <= e
    ensures WalksUpTo(symbols, start, d) <= WalksUpTo(symbols, start, e)
    decreases e
  {
    hide Walks;
    if d < e {
      LevelsGrow(symbols, start, d, e - 1);
    }
  }

  /** Stopping early does not show: what the search has is enough. */
  lemma {:induction false} EnoughFound(symbols: seq<Symbol>, start: string, d: nat)
    requires d <= MAX_DEPTH
    requires d == MAX_DEPTH || Walks(symbols, start, d) == [] || |WalksUpTo(symbols, start, d)| >= MAX_PATHS
    ensures Take(WalksUpTo(symbols, start, d), MAX_PATHS) == Impact(symbols, start)
  {
    hide Walks, WalksUpTo;
    LevelsGrow(symbols, start, d, MAX_DEPTH);
    if Walks(symbols, start, d) == [] {
      NoMoreWalks(symbols, start, d, MAX_DEPTH);
    }
  }

  lemma {:induction false} Level(symbols: seq<Symbol>, start: string, d: nat)
    ensures Walks(symbols, start, 0) == [[start]] && WalksUpTo(symbols, start, 0) == []
    ensures Walks(symbols, start, d + 1) == Extend(symbols, Walks(symbols, start, d))
    ensures WalksUpTo(symbols, start, d + 1) == WalksUpTo(symbols, start, d) + Walks(symbols, start, d + 1)
  {
  }

  /** A breadth-first search that stops after the level that reaches twenty paths. */
  method ImpactPath(symbols: seq<Symbol>, start: string) returns (result: seq<Path>)
    ensures result == Impact(symbols, start)
  {
    hide Walks, WalksUpTo, Extend, Take, Impact, IsWalk;
    var callers := CallersMap(symbols);
    var paths: seq<Path> := [];
    var frontier := [[start]];
    var depth := 0;
    var done := false;
    Level(symbols, start, 0);
    while depth < MAX_DEPTH && !done
      invariant 0 <= depth <= MAX_DEPTH
      invariant paths == WalksUpTo(symbols, start, depth)
      invariant !done ==> frontier == Walks(symbols, start, depth)
      invariant done ==> |paths| >= MAX_PATHS || Walks(symbols, start, depth) == []
      decreases MAX_DEPTH - depth, !done
    {
      Level(symbols, start, depth);
      forall p | p in frontier
        ensures |p| == depth + 1
      {
        WalksAreWalks(symbols, start, depth, p);
      }
      var next := ExtendAll(symbols, callers, frontier, depth);
      paths := paths + next;
      depth := depth + 1;
      if next == [] {
        done := true;
      } else {
        frontier := next;
        done := |paths| >= MAX_PATHS;
      }
    }
    EnoughFound(symbols, start, depth);
    result := Take(paths, MAX_PATHS);
  }

  lemma {:induction false} ExtendStep(symbols: seq<Symbol>, paths: seq<Path>, i: nat, done: seq<Path>)
    requires i < |paths|
    ensures done + Extend(symbols, paths[i..])
            == (done + Steps(paths[i], Callers(symbols, End(paths[i])))) + Extend(symbols, paths[i + 1..])
  {
    assert paths[i..][1..] == paths[i + 1..];
    Assoc(done, Steps(paths[i], Callers(symbols, End(paths[i]))), Extend(symbols, paths[i + 1..]));
  }

  /** One level: paths that would exceed six nodes are not prolonged. */
  method ExtendAll(symbols: seq<Symbol>, callers: map<string, seq<string>>, frontier: seq<Path>, depth: nat)
    returns (next: seq<Path>)
    requires depth < MAX_DEPTH && forall p :: p in frontier ==> |p| == depth + 1
    requires IsCallersMap(symbols, callers)
    ensures next == Extend(symbols, frontier)
  {
    hide Steps, Extend, Callers;
    next := [];
    assert next + Extend(symbols, frontier[0..]) == Extend(symbols, frontier) by {
      assert frontier[0..] == frontier;
    }
    for i := 0 to |frontier|
      invariant Extend(symbols, frontier) == next + Extend(symbols, frontier[i..])
    {
      var path := frontier[i];
      assert path in frontier;
      ExtendStep(symbols, frontier, i, next);
      var more := Prolong(path, Listed(callers, End(path)), depth);
      next := next + more;
    }
    ExtendNothing(symbols, frontier[|frontier|..]);
    assert next + [] == next;
  }

  lemma {:induction false} ExtendNothing(symbols: seq<Symbol>, paths: seq<Path>)
    ensures paths == [] ==> Extend(symbols, paths) == []
  {
  }

  method Prolong(path: Path, parents: seq<string>, depth: nat) returns (more: seq<Path>)
    requires depth < MAX_DEPTH && |path| == depth + 1
    ensures more == Steps(path, parents)
  {
    more := [];
    for j := 0 to |parents|
      invariant Steps(path, parents) == more + Steps(path, parents[j..])
    {
      assert parents[j..][1..] == parents[j + 1..];
      var longer := path + [parents[j]];
      if |longer| <= MAX_DEPTH + 1 {
        more := more + [longer];
      }
    }
    assert more + [] == more;
  }

  // ---------- what the result is worth ----------

  lemma {:induction false} UpToHas(symbols: seq<Symbol>, start: string, d: nat, p: Path)
    ensures p in WalksUpTo(symbols, start, d) <==> 2 <= |p| <= d + 1 && IsWalk(symbols, start, p)
    decreases d
  {
    hide Walks, IsWalk;
    if d > 0 {
      UpToHas(symbols, start, d - 1, p);
      WalksAreWalks(symbols, start, d, p);
    }
  }

  lemma {:induction false} UpToOrdered(symbols: seq<Symbol>, start: string, d: nat)
    ensures forall i, j :: 0 <= i < j < |WalksUpTo(symbols, start, d)| ==>
              |WalksUpTo(symbols, start, d)[i]| <= |WalksUpTo(symbols, start, d)[j]|
    decreases d
  {
    hide Walks, IsWalk;
    if d > 0 {
      UpToOrdered(symbols, start, d - 1);
      var a, b := WalksUpTo(symbols, start, d - 1), Walks(symbols, start, d);
      forall p
        ensures p in a ==> |p| <= d
        ensures p in b ==> |p| == d + 1
      {
        UpToHas(symbols, start, d - 1, p);
        WalksAreWalks(symbols, start, d, p);
      }
      forall i, j | 0 <= i < j < |a + b|
        ensures |(a + b)[i]| <= |(a + b)[j]|
      {
        assert (a + b)[i] in a || (a + b)[i] in b;
        assert j >= |a| ==> (a + b)[j] in b;
      }
    }
  }

  /** Every path found is a walk of 1 to 5 calls against their direction, shortest first; a walk
      that is missing is at least as long as every path found, and nothing is missing unless the
      limit of twenty was reached. */
  lemma {:induction false} ImpactIsNearest(symbols: seq<Symbol>, start: string)
    ensures var found := Impact(symbols, start);
            && |found| <= MAX_PATHS
            && (forall p :: p in found ==> 2 <= |p| <= MAX_DEPTH + 1 && CallerPath(symbols, start, p))
            && (forall i, j :: 0 <= i < j < |found| ==> |found[i]| <= |found[j]|)
            && (forall p :: 2 <= |p| <= MAX_DEPTH + 1 && CallerPath(symbols, start, p) && p !in found ==>
                  |found| == MAX_PATHS && forall q :: q in found ==> |q| <= |p|)
  {
    hide WalksUpTo, IsWalk, CallerPath;
    var all, found := WalksUpTo(symbols, start, MAX_DEPTH), Impact(symbols, start);
    UpToOrdered(symbols, start, MAX_DEPTH);
    forall p
      ensures p in all <==> 2 <= |p| <= MAX_DEPTH + 1 && CallerPath(symbols, start, p)
    {
      UpToHas(symbols, start, MAX_DEPTH, p);
      WalkMeans(symbols, start, p);
    }
    forall p | p in all && p !in found
      ensures |found| == MAX_PATHS && forall q :: q in found ==> |q| <= |p|
    {
      var k :| 0 <= k < |all| && all[k] == p;
      assert k >= MAX_PATHS by {
        assert forall i :: 0 <= i < |found| ==> found[i] == all[i];
        assert forall i :: 0 <= i < |found| ==> all[i] in found;
      }
      forall q | q in found
        ensures |q| <= |p|
      {
        var i :| 0 <= i < |found| && found[i] == q;
        assert all[i] == q;
      }
    }
  }
}
