/** What the depth-first order of plugins guarantees, with and without cycles. */
module PluginOrder {
  import opened Plugins

  // ---------- dependency paths ----------

  ghost predicate Edge(plugins: seq<Plugin>, a: string, b: string) {
    b in ByName(plugins) && exists q :: q in plugins && q.name == a && b in q.deps
  }

  ghost predicate IsPath(plugins: seq<Plugin>, path: seq<string>) {
    path != [] && forall k :: 0 <= k < |path| - 1 ==> Edge(plugins, path[k], path[k + 1])
  }

  /** `a` is `b` or depends on it, through any number of plugins. */
  ghost predicate Reaches(plugins: seq<Plugin>, a: string, b: string) {
    exists path :: IsPath(plugins, path) && path[0] == a && path[|path| - 1] == b
  }

  ghost predicate Acyclic(plugins: seq<Plugin>) {
    forall path :: IsPath(plugins, path) && |path| > 1 ==> path[0] != path[|path| - 1]
  }

  lemma {:induction false} ReachesSelf(plugins: seq<Plugin>, a: string)
    ensures Reaches(plugins, a, a)
  {
    assert IsPath(plugins, [a]);
  }

  lemma {:induction false} ReachesStep(plugins: seq<Plugin>, a: string, b: string, c: string)
    requires Reaches(plugins, a, b) && Edge(plugins, b, c)
    ensures Reaches(plugins, a, c)
  {
    var path :| IsPath(plugins, path) && path[0] == a && path[|path| - 1] == b;
    assert IsPath(plugins, path + [c]);
  }

  /** Behind an edge, a way back closes a cycle. */
  lemma {:induction false} EdgeAndBack(plugins: seq<Plugin>, a: string, b: string)
    requires Edge(plugins, a, b) && Reaches(plugins, b, a)
    ensures !Acyclic(plugins)
  {
    var path :| IsPath(plugins, path) && path[0] == b && path[|path| - 1] == a;
    var cycle := [a] + path;
    forall k | 0 <= k < |cycle| - 1
      ensures Edge(plugins, cycle[k], cycle[k + 1])
    {
      assert k > 0 ==> Edge(plugins, path[k - 1], path[k - 1 + 1]);
    }
    assert IsPath(plugins, cycle);
  }

  // ---------- what every call of visit keeps ----------

  ghost predicate Before(ordered: seq<Plugin>, name: string, i: int) {
    exists j :: 0 <= j < i && j < |ordered| && ordered[j].name == name
  }

  ghost predicate Placed(plugins: seq<Plugin>, ordered: seq<Plugin>, i: nat)
    requires i < |ordered|
  {
    forall d :: d in ordered[i].deps && d in ByName(plugins) ==>
      Before(ordered, d, i) || Reaches(plugins, d, ordered[i].name)
  }

  ghost predicate Good(plugins: seq<Plugin>, v: Visited) {
    && (forall i :: 0 <= i < |v.ordered| ==> v.ordered[i] in plugins && v.ordered[i].name in v.names)
    && (forall n :: n in v.names ==> Before(v.ordered, n, |v.ordered|))
    && (forall i, j :: 0 <= i < j < |v.ordered| ==> v.ordered[i].name != v.ordered[j].name)
    && (forall i :: 0 <= i < |v.ordered| ==> Placed(plugins, v.ordered, i))
  }

  ghost predicate AllReach(plugins: seq<Plugin>, stack: set<string>, name: string) {
    forall s :: s in stack ==> Reaches(plugins, s, name)
  }

  lemma {:induction false} PushGood(plugins: seq<Plugin>, stack: set<string>, p: Plugin, v: Visited)
    requires Good(plugins, v) && p in plugins && p.name !in v.names
    requires AllReach(plugins, stack, p.name)
    requires forall d :: d in p.deps && d in ByName(plugins) ==> d in v.names || d in stack
    ensures Good(plugins, Visited(v.names + {p.name}, v.ordered + [p]))
  {
    var n := |v.ordered|;
    var out := v.ordered + [p];
    forall name | name in v.names + {p.name}
      ensures Before(out, name, n + 1)
    {
      if name in v.names {
        assert Before(v.ordered, name, n);
        var j :| 0 <= j < n && v.ordered[j].name == name;
        assert out[j].name == name;
      } else {
        assert out[n].name == name;
      }
    }
    forall i | 0 <= i < n + 1
      ensures Placed(plugins, out, i)
    {
      forall d | d in out[i].deps && d in ByName(plugins)
        ensures Before(out, d, i) || Reaches(plugins, d, out[i].name)
      {
        if i < n {
          assert Placed(plugins, v.ordered, i);
          KeepBefore(v.ordered, p, d, i);
        } else if d in v.names {
          KeepBefore(v.ordered, p, d, n);
        }
      }
    }
  }

  lemma {:induction false} KeepBefore(ordered: seq<Plugin>, p: Plugin, d: string, i: nat)
    requires i <= |ordered|
    ensures Before(ordered, d, i) ==> Before(ordered + [p], d, i)
  {
    if Before(ordered, d, i) {
      var j :| 0 <= j < i && ordered[j].name == d;
      assert (ordered + [p])[j].name == d;
    }
  }

  lemma {:induction false} VisitKeeps(plugins: seq<Plugin>, stack: set<string>, p: Plugin, v: Visited)
    requires p in plugins && Good(plugins, v) && stack !! v.names && AllReach(plugins, stack, p.name)
    ensures var r := Visit(ByName(plugins), stack, p, v);
            Good(plugins, r) && stack !! r.names && (p.name in r.names || p.name in stack)
    decreases |ByName(plugins).Keys - stack - v.names|, 0, 0
  {
    hide Good, Reaches;
    var known := ByName(plugins);
    if p.name !in v.names && p.name !in stack {
      FewerLeft(known, p.name, stack, v.names);
      ReachesSelf(plugins, p.name);
      VisitDepsKeep(plugins, stack + {p.name}, p, p.deps, v);
      PushGood(plugins, stack + {p.name}, p, VisitDeps(known, stack + {p.name}, p.deps, v));
    }
  }

  lemma {:induction false} VisitDepsKeep(plugins: seq<Plugin>, stack: set<string>, p: Plugin, deps: seq<string>,
                                         v: Visited)
    requires p in plugins && Good(plugins, v) && stack !! v.names && AllReach(plugins, stack, p.name)
    requires forall d :: d in deps ==> d in p.deps
    ensures var r := VisitDeps(ByName(plugins), stack, deps, v);
            Good(plugins, r) && stack !! r.names
            && forall d :: d in deps && d in ByName(plugins) ==> d in r.names || d in stack
    decreases |ByName(plugins).Keys - stack - v.names|, 1, |deps|
  {
    hide Good, Reaches;
    var known := ByName(plugins);
    if deps != [] {
      var next := if deps[0] in known then Visit(known, stack, known[deps[0]], v) else v;
      if deps[0] in known {
        assert deps[0] in deps;
        assert Edge(plugins, p.name, deps[0]);
        forall s | s in stack
          ensures Reaches(plugins, s, deps[0])
        {
          ReachesStep(plugins, s, p.name, deps[0]);
        }
        VisitKeeps(plugins, stack, known[deps[0]], v);
      }
      SmallerSet(known.Keys - stack - next.names, known.Keys - stack - v.names);
      VisitDepsKeep(plugins, stack, p, deps[1..], next);
    }
  }

  lemma {:induction false} VisitAllKeeps(plugins: seq<Plugin>, rest: seq<Plugin>, v: Visited)
    requires Good(plugins, v) && forall p :: p in rest ==> p in plugins
    ensures var r := VisitAll(ByName(plugins), rest, v);
            Good(plugins, r) && v.names <= r.names && forall p :: p in rest ==> p.name in r.names
    decreases |rest|
  {
    hide Good;
    if rest != [] {
      assert rest[0] in rest;
      VisitKeeps(plugins, {}, rest[0], v);
      VisitAllKeeps(plugins, rest[1..], Visit(ByName(plugins), {}, rest[0], v));
    }
  }

  // ---------- the main results ----------

  ghost predicate DistinctNames(plugins: seq<Plugin>) {
    forall i, j :: 0 <= i < j < |plugins| ==> plugins[i].name != plugins[j].name
  }

  /** Every dependency that is present comes first. */
  ghost predicate InOrder(plugins: seq<Plugin>, ordered: seq<Plugin>) {
    forall i, d :: 0 <= i < |ordered| && d in ordered[i].deps && d in ByName(plugins) ==> Before(ordered, d, i)
  }

  /** Every name comes out exactly once, and a dependency that does not come first closes a cycle. */
  lemma {:induction false} SortedIsGood(plugins: seq<Plugin>)
    ensures forall i :: 0 <= i < |Sorted(plugins)| ==> Sorted(plugins)[i] in plugins
    ensures DistinctNames(Sorted(plugins))
    ensures forall p :: p in plugins ==> Before(Sorted(plugins), p.name, |Sorted(plugins)|)
    ensures forall i :: 0 <= i < |Sorted(plugins)| ==> Placed(plugins, Sorted(plugins), i)
  {
    VisitAllKeeps(plugins, plugins, Visited({}, []));
  }

  /** With distinct names nothing is lost or repeated. */
  lemma {:induction false} SortedIsPermutation(plugins: seq<Plugin>)
    requires DistinctNames(plugins)
    ensures multiset(Sorted(plugins)) == multiset(plugins)
  {
    var out := Sorted(plugins);
    SortedIsGood(plugins);
    forall p
      ensures p in out <==> p in plugins
    {
      if p in plugins {
        assert Before(out, p.name, |out|);
        var j :| 0 <= j < |out| && out[j].name == p.name;
        assert out[j] in plugins;
        var k :| 0 <= k < |plugins| && plugins[k] == out[j];
        var l :| 0 <= l < |plugins| && plugins[l] == p;
        assert k == l;
      }
    }
    forall p
      ensures multiset(out)[p] == multiset(plugins)[p]
    {
      OnceEach(out, p);
      OnceEach(plugins, p);
    }
  }

  lemma {:induction false} OnceEach(s: seq<Plugin>, p: Plugin)
    requires DistinctNames(s)
    ensures multiset(s)[p] == if p in s then 1 else 0
  {
    if s != [] {
      var n := |s| - 1;
      assert s == s[..n] + [s[n]];
      OnceEach(s[..n], p);
    }
  }

  lemma {:induction false} PathFalls(plugins: seq<Plugin>, ordered: seq<Plugin>, path: seq<string>, at: nat) returns (end: nat)
    requires DistinctNames(plugins) && DistinctNames(ordered) && InOrder(plugins, ordered)
    requires forall p :: p in plugins ==> p in ordered
    requires IsPath(plugins, path) && at < |ordered| && ordered[at].name == path[0]
    ensures end < |ordered| && ordered[end].name == path[|path| - 1]
    ensures end <= at && (|path| > 1 ==> end < at)
    decreases |path|
  {
    end := at;
    if |path| > 1 {
      assert Edge(plugins, path[0], path[0 + 1]);
      var q :| q in plugins && q.name == path[0] && path[1] in q.deps;
      var k :| 0 <= k < |ordered| && ordered[k] == q;
      assert k == at;
      assert Before(ordered, path[1], at);
      var j :| 0 <= j < at && ordered[j].name == path[1];
      var rest := path[1..];
      forall i | 0 <= i < |rest| - 1
        ensures Edge(plugins, rest[i], rest[i + 1])
      {
        assert Edge(plugins, path[i + 1], path[i + 1 + 1]);
      }
      end := PathFalls(plugins, ordered, rest, j);
    }
  }

  /** Dependencies come first throughout exactly when no plugin depends on itself in a circle. */
  lemma {:induction false} InOrderIffAcyclic(plugins: seq<Plugin>)
    requires DistinctNames(plugins)
    ensures InOrder(plugins, Sorted(plugins)) <==> Acyclic(plugins)
  {
    var out := Sorted(plugins);
    SortedIsGood(plugins);
    SortedIsPermutation(plugins);
    assert forall p :: p in plugins ==> p in multiset(plugins);
    if Acyclic(plugins) {
      forall i, d | 0 <= i < |out| && d in out[i].deps && d in ByName(plugins)
        ensures Before(out, d, i)
      {
        assert Placed(plugins, out, i);
        if Reaches(plugins, d, out[i].name) {
          assert Edge(plugins, out[i].name, d);
          EdgeAndBack(plugins, out[i].name, d);
        }
      }
    }
    if InOrder(plugins, out) {
      forall path | IsPath(plugins, path) && |path| > 1
        ensures path[0] != path[|path| - 1]
      {
        assert Edge(plugins, path[0], path[0 + 1]);
        var q :| q in plugins && q.name == path[0] && path[1] in q.deps;
        assert Before(out, q.name, |out|);
        var at :| 0 <= at < |out| && out[at].name == path[0];
        var end := PathFalls(plugins, out, path, at);
      }
    }
  }

  // ---------- lists that are in order already ----------

  lemma {:induction false} DepsDone(known: map<string, Plugin>, stack: set<string>, deps: seq<string>, v: Visited)
    requires Keyed(known) && forall d :: d in deps && d in known ==> d in v.names
    ensures VisitDeps(known, stack, deps, v) == v
    decreases |deps|
  {
    if deps != [] {
      DepsDone(known, stack, deps[1..], v);
    }
  }

  lemma {:induction false} VisitNext(known: map<string, Plugin>, p: Plugin, v: Visited)
    requires Keyed(known) && p.name in known && p.name !in v.names
    requires forall d :: d in p.deps && d in known ==> d in v.names
    ensures Visit(known, {}, p, v) == Visited(v.names + {p.name}, v.ordered + [p])
  {
    DepsDone(known, {} + {p.name}, p.deps, v);
  }

  lemma {:induction false} BeforeNext(plugins: seq<Plugin>, i: nat, n: string)
    requires i < |plugins|
    ensures Before(plugins, n, i + 1) <==> Before(plugins, n, i) || n == plugins[i].name
  {
  }

  /** The names visited are those of the first `i` plugins. */
  ghost predicate DoneTo(plugins: seq<Plugin>, i: nat, v: Visited)
    requires i <= |plugins|
  {
    v.ordered == plugins[..i] && forall n :: n in v.names <==> Before(plugins, n, i)
  }

  lemma {:induction false} NextIsReady(plugins: seq<Plugin>, i: nat)
    requires DistinctNames(plugins) && InOrder(plugins, plugins) && i < |plugins|
    ensures !Before(plugins, plugins[i].name, i)
    ensures forall d :: d in plugins[i].deps && d in ByName(plugins) ==> Before(plugins, d, i)
  {
    hide ByName;
  }

  lemma {:induction false} NextInOrder(plugins: seq<Plugin>, i: nat, v: Visited) returns (next: Visited)
    requires DistinctNames(plugins) && InOrder(plugins, plugins) && i < |plugins| && DoneTo(plugins, i, v)
    ensures DoneTo(plugins, i + 1, next)
    ensures Visit(ByName(plugins), {}, plugins[i], v) == next
  {
    hide Visit, VisitDeps, ByName, Before, InOrder, DistinctNames;
    var p := plugins[i];
    next := Visited(v.names + {p.name}, v.ordered + [p]);
    NextIsReady(plugins, i);
    VisitNext(ByName(plugins), p, v);
    forall n
      ensures n in next.names <==> Before(plugins, n, i + 1)
    {
      BeforeNext(plugins, i, n);
    }
  }

  lemma {:induction false} VisitAllStep(known: map<string, Plugin>, plugins: seq<Plugin>, i: nat, v: Visited)
    requires Keyed(known) && i <= |plugins| && forall p :: p in plugins ==> p.name in known
    ensures i < |plugins| ==>
              VisitAll(known, plugins[i..], v) == VisitAll(known, plugins[i + 1..], Visit(known, {}, plugins[i], v))
    ensures i == |plugins| ==> VisitAll(known, plugins[i..], v) == v
  {
    if i < |plugins| {
      assert plugins[i..][1..] == plugins[i + 1..];
    }
  }

  lemma {:induction false} VisitInOrder(plugins: seq<Plugin>, i: nat, v: Visited)
    requires DistinctNames(plugins) && InOrder(plugins, plugins) && i <= |plugins| && DoneTo(plugins, i, v)
    ensures VisitAll(ByName(plugins), plugins[i..], v).ordered == plugins
    decreases |plugins| - i
  {
    hide *;
    VisitAllStep(ByName(plugins), plugins, i, v);
    if i < |plugins| {
      var next := NextInOrder(plugins, i, v);
      VisitInOrder(plugins, i + 1, next);
    } else {
      WholeIsDone(plugins, v);
    }
  }

  lemma {:induction false} WholeIsDone(plugins: seq<Plugin>, v: Visited)
    requires DoneTo(plugins, |plugins|, v)
    ensures v.ordered == plugins
  {
  }

  /** A list in which dependencies come first keeps its order. */
  lemma {:induction false} InOrderIsKept(plugins: seq<Plugin>)
    requires DistinctNames(plugins) && InOrder(plugins, plugins)
    ensures Sorted(plugins) == plugins
  {
    assert plugins[0..] == plugins;
    VisitInOrder(plugins, 0, Visited({}, []));
  }

  /** Sorting a sorted acyclic list changes nothing. */
  lemma {:induction false} SortedTwice(plugins: seq<Plugin>)
    requires DistinctNames(plugins) && Acyclic(plugins)
    ensures Sorted(Sorted(plugins)) == Sorted(plugins)
  {
    var out := Sorted(plugins);
    SortedIsGood(plugins);
    InOrderIffAcyclic(plugins);
    forall d | d in ByName(out)
      ensures d in ByName(plugins)
    {
      assert ByName(out)[d] in plugins;
    }
    InOrderIsKept(out);
  }
}
