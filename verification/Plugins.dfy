/** `topo_sort` of `harness-core/src/plugin.rs`: depth-first ordering that tolerates cycles. */
module Plugins {

  datatype Plugin = Plugin(name: string, deps: seq<string>)

  /** Later plugins replace earlier ones of the same name. */
  function ByName(plugins: seq<Plugin>): (m: map<string, Plugin>)
    ensures forall n :: n in m ==> m[n].name == n && m[n] in plugins
    ensures forall p :: p in plugins ==> p.name in m
  {
    if plugins == [] then map[]
    else ByName(plugins[..|plugins| - 1])[plugins[|plugins| - 1].name := plugins[|plugins| - 1]]
  }

  ghost predicate Keyed(known: map<string, Plugin>) {
    forall n :: n in known ==> known[n].name == n
  }

  datatype Visited = Visited(names: set<string>, ordered: seq<Plugin>)

  lemma {:induction false} SmallerSet(a: set<string>, b: set<string>)
    requires a <= b
    ensures |a| <= |b|
  {
    if a != {} {
      var x :| x in a;
      SmallerSet(a - {x}, b - {x});
    }
  }

  lemma {:induction false} FewerLeft(known: map<string, Plugin>, name: string, stack: set<string>, names: set<string>)
    requires name in known && name !in stack && name !in names
    ensures |known.Keys - (stack + {name}) - names| < |known.Keys - stack - names|
  {
    var left := known.Keys - stack - names;
    assert known.Keys - (stack + {name}) - names == left - {name};
  }

  /** One call of `visit`, with the names of the calls it is nested in. */
  function Visit(known: map<string, Plugin>, stack: set<string>, p: Plugin, v: Visited): (r: Visited)
    requires p.name in known && Keyed(known)
    ensures v.names <= r.names
    decreases |known.Keys - stack - v.names|, 0, 0
  {
    if p.name in v.names || p.name in stack then v
    else
      FewerLeft(known, p.name, stack, v.names);
      var r := VisitDeps(known, stack + {p.name}, p.deps, v);
      Visited(r.names + {p.name}, r.ordered + [p])
  }

  function VisitDeps(known: map<string, Plugin>, stack: set<string>, deps: seq<string>, v: Visited): (r: Visited)
    requires Keyed(known)
    ensures v.names <= r.names
    decreases |known.Keys - stack - v.names|, 1, |deps|
  {
    if deps == [] then v
    else
      var next := if deps[0] in known then Visit(known, stack, known[deps[0]], v) else v;
      SmallerSet(known.Keys - stack - next.names, known.Keys - stack - v.names);
      VisitDeps(known, stack, deps[1..], next)
  }

  function VisitAll(known: map<string, Plugin>, plugins: seq<Plugin>, v: Visited): Visited
    requires Keyed(known) && forall p :: p in plugins ==> p.name in known
  {
    if plugins == [] then v
    else
      assert plugins[0] in plugins;
      VisitAll(known, plugins[1..], Visit(known, {}, plugins[0], v))
  }

  function Sorted(plugins: seq<Plugin>): seq<Plugin> {
    VisitAll(ByName(plugins), plugins, Visited({}, [])).ordered
  }

  // ---------- the recursion over shared state ----------

  class Sorter {
    const known: map<string, Plugin>
    var visited: set<string>
    var inStack: set<string>
    var ordered: seq<Plugin>

    constructor (plugins: seq<Plugin>)
      ensures known == ByName(plugins) && visited == {} && inStack == {} && ordered == []
    {
      known, visited, inStack, ordered := ByName(plugins), {}, {}, [];
    }

    ghost function State(): Visited
      reads this
    {
      Visited(visited, ordered)
    }

    method VisitPlugin(p: Plugin)
      requires p.name in known && Keyed(known)
      modifies this`visited, this`inStack, this`ordered
      ensures inStack == old(inStack)
      ensures State() == Visit(known, old(inStack), p, old(State()))
      decreases |known.Keys - inStack - visited|
    {
      if p.name in visited || p.name in inStack {
        return;
      }
      FewerLeft(known, p.name, inStack, visited);
      ghost var stack := inStack + {p.name};
      inStack := inStack + {p.name};
      ghost var all := VisitDeps(known, stack, p.deps, State());
      for i := 0 to |p.deps|
        invariant inStack == stack && old(visited) <= visited
        invariant VisitDeps(known, stack, p.deps[i..], State()) == all
      {
        var d := p.deps[i];
        assert p.deps[i..][1..] == p.deps[i + 1..];
        if d in known {
          SmallerSet(known.Keys - stack - visited, known.Keys - stack - old(visited));
          VisitPlugin(known[d]);
        }
      }
      inStack := inStack - {p.name};
      visited := visited + {p.name};
      ordered := ordered + [p];
    }
  }

  method TopoSort(plugins: seq<Plugin>) returns (ordered: seq<Plugin>)
    ensures ordered == Sorted(plugins)
  {
    var sorter := new Sorter(plugins);
    for i := 0 to |plugins|
      invariant sorter.known == ByName(plugins) && sorter.inStack == {}
      invariant VisitAll(sorter.known, plugins[i..], sorter.State()).ordered == Sorted(plugins)
    {
      assert plugins[i..][0] in plugins && plugins[i..][1..] == plugins[i + 1..];
      sorter.VisitPlugin(plugins[i]);
    }
    ordered := sorter.ordered;
  }
}
