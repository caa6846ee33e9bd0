/** Contexts that fork, and what dropping registrations brings back (`harness-core/src/context.rs`). */
module Contexts {
  import opened Subscriptions

  // ---------- dropping everything ----------

  lemma {:induction false} LiveHas(subs: seq<Sub>, ops: seq<TableOp>, key: Key)
    ensures forall s :: s in Live(subs, ops, key) <==> s in subs && !Dropped(ops, key, s.id)
  {
    if subs != [] {
      LiveHas(subs[1..], ops, key);
      assert forall s :: s in subs <==> s == subs[0] || s in subs[1..];
    }
  }

  lemma {:induction false} LiveNone(subs: seq<Sub>, ops: seq<TableOp>, key: Key)
    requires forall s :: s in subs ==> Dropped(ops, key, s.id)
    ensures Live(subs, ops, key) == []
  {
    if subs != [] {
      assert subs[0] in subs;
      LiveNone(subs[1..], ops, key);
    }
  }

  lemma {:induction false} LiveAll(subs: seq<Sub>, ops: seq<TableOp>, key: Key)
    requires forall s :: s in subs ==> !Dropped(ops, key, s.id)
    ensures Live(subs, ops, key) == subs
  {
    if subs != [] {
      assert subs[0] in subs;
      LiveAll(subs[1..], ops, key);
    }
  }

  /** The new registrations of a run are dropped again, and no older one is. */
  ghost predicate Balanced(t: Table, ops: seq<TableOp>, key: Key) {
    && (forall s :: s in Registered(t.next, ops, key) ==> Dropped(ops, key, s.id))
    && (forall s :: s in View(t, key) ==> !Dropped(ops, key, s.id))
  }

  /** In whatever order registrations come and go, a list is back to what it was exactly when
      all that came has gone and nothing else has. */
  lemma {:induction false} RestoredIffBalanced(t: Table, ops: seq<TableOp>, key: Key)
    requires Well(t) && DropsAreLate(t.next, ops)
    ensures View(Run(t, ops), key) == View(t, key) <==> Balanced(t, ops, key)
  {
    hide Run, Live, Registered, Dropped, Well;
    var view, added := View(t, key), Registered(t.next, ops, key);
    RunView(t, ops, key);
    LiveAppend(view, added, ops, key);
    LiveHas(view, ops, key);
    LiveHas(added, ops, key);
    RegisteredIds(t.next, ops, key);
    OldIds(t, key);
    if Balanced(t, ops, key) {
      LiveNone(added, ops, key);
      LiveAll(view, ops, key);
      assert view + [] == view;
    }
    if Live(view, ops, key) + Live(added, ops, key) == view {
      forall s | s in added
        ensures Dropped(ops, key, s.id)
      {
        assert s !in view;
        assert s in Live(added, ops, key) ==> s in view;
      }
      forall s | s in view
        ensures !Dropped(ops, key, s.id)
      {
        assert s in Live(view, ops, key) + Live(added, ops, key);
      }
    }
  }

  lemma {:induction false} OldIds(t: Table, key: Key)
    requires Well(t)
    ensures forall s :: s in View(t, key) ==> s.id < t.next
  {
  }

  function Registrations(ops: seq<TableOp>): nat {
    if ops == [] then 0 else (if ops[0].Register? then 1 else 0) + Registrations(ops[1..])
  }

  /** Only the lists come back: the id counter has moved on, so that no id is handed out twice. */
  lemma {:induction false} CounterMovesOn(t: Table, ops: seq<TableOp>)
    ensures Run(t, ops).next == t.next + Registrations(ops)
    decreases |ops|
  {
    if ops != [] {
      CounterMovesOn(Apply(t, ops[0]), ops[1..]);
    }
  }

  lemma {:induction false} RunKeepsWell(t: Table, ops: seq<TableOp>)
    requires Well(t)
    ensures Well(Run(t, ops))
    decreases |ops|
  {
    hide Well, Add, Remove;
    if ops != [] {
      match ops[0] {
        case Register(key, handler) => AddKeepsWell(t, key, handler);
        case Drop(key, id) => RemoveKeepsWell(t, key, id);
      }
      RunKeepsWell(Apply(t, ops[0]), ops[1..]);
    }
  }

  // ---------- worlds of contexts ----------

  lemma {:induction false} MaxExists(subs: map<Key, seq<Sub>>) returns (best: nat)
    ensures IsMaxId(subs, best)
  {
    best := 0;
    var left := subs.Keys;
    while left != {}
      invariant left <= subs.Keys && IsMaxId(subs - left, best)
      decreases left
    {
      var key :| key in left;
      var m := MaxOf(subs[key]);
      MaxGrows(subs, left, key, best, m);
      best := if m > best then m else best;
      left := left - {key};
    }
    assert subs - left == subs;
  }

  ghost function ForkOf(parent: Table): (child: Table)
    ensures IsFork(parent, child)
  {
    assert exists child :: IsFork(parent, child) by {
      var m := MaxExists(parent.subs);
      assert IsFork(parent, Table(parent.subs, m + 1));
    }
    var child :| IsFork(parent, child);
    child
  }

  datatype WorldOp = On(ctx: nat, op: TableOp) | Fork(ctx: nat)

  ghost function ApplyWorld(w: seq<Table>, op: WorldOp): seq<Table>
    requires op.ctx < |w|
  {
    match op
    case On(ctx, inner) => w[ctx := Apply(w[ctx], inner)]
    case Fork(ctx) => w + [ForkOf(w[ctx])]
  }

  /** Every operation is on a context that exists by then. */
  predicate Sensible(n: nat, ops: seq<WorldOp>)
    decreases |ops|
  {
    if ops == [] then true
    else ops[0].ctx < n && Sensible(if ops[0].Fork? then n + 1 else n, ops[1..])
  }

  ghost function RunWorld(w: seq<Table>, ops: seq<WorldOp>): seq<Table>
    requires Sensible(|w|, ops)
    decreases |ops|
  {
    if ops == [] then w else RunWorld(ApplyWorld(w, ops[0]), ops[1..])
  }

  /** The operations of a run on one context. */
  function Own(ops: seq<WorldOp>, ctx: nat): seq<TableOp> {
    if ops == [] then []
    else (if ops[0].On? && ops[0].ctx == ctx then [ops[0].op] else []) + Own(ops[1..], ctx)
  }

  /** A context is changed by its own operations only: no registration, drop or fork elsewhere shows. */
  lemma {:induction false} ForkIsolation(w: seq<Table>, ops: seq<WorldOp>, ctx: nat)
    requires Sensible(|w|, ops) && ctx < |w|
    ensures |RunWorld(w, ops)| >= |w|
    ensures RunWorld(w, ops)[ctx] == Run(w[ctx], Own(ops, ctx))
    decreases |ops|
  {
    hide Apply, ForkOf;
    if ops != [] {
      ForkIsolation(ApplyWorld(w, ops[0]), ops[1..], ctx);
      if ops[0].On? && ops[0].ctx == ctx {
        assert Own(ops, ctx)[1..] == Own(ops[1..], ctx);
      } else {
        assert Own(ops, ctx) == Own(ops[1..], ctx);
      }
    }
  }

  /** In every context ids stay unique, bounded and ascending, whatever the others do. */
  lemma {:induction false} WorldKeepsWell(w: seq<Table>, ops: seq<WorldOp>)
    requires Sensible(|w|, ops) && forall t :: t in w ==> Well(t)
    ensures forall t :: t in RunWorld(w, ops) ==> Well(t)
    decreases |ops|
  {
    hide Well, ForkOf;
    if ops != [] {
      var t := w[ops[0].ctx];
      assert t in w;
      match ops[0] {
        case On(_, op) =>
          RunKeepsWell(t, [op]);
          assert Run(Apply(t, op), [op][1..]) == Apply(t, op);
        case Fork(_) =>
          ForkKeepsWell(t, ForkOf(t));
      }
      WorldKeepsWell(ApplyWorld(w, ops[0]), ops[1..]);
    }
  }

  /** What a forked context collects after any further run of the whole world: the handlers it
      inherited and those it registered itself, in order, without those it dropped itself. */
  lemma {:induction false} ForkSees(w: seq<Table>, parent: nat, ops: seq<WorldOp>, key: Key)
    requires parent < |w| && Sensible(|w| + 1, ops)
    requires DropsAreLate(ForkOf(w[parent]).next, Own(ops, |w|))
    ensures var own, child := Own(ops, |w|), ForkOf(w[parent]);
            && |RunWorld(w + [child], ops)| > |w|
            && View(RunWorld(w + [child], ops)[|w|], key)
               == Live(View(w[parent], key) + Registered(child.next, own, key), own, key)
  {
    hide Run, Live, Registered, DropsAreLate, RunWorld;
    var child := ForkOf(w[parent]);
    ForkIsolation(w + [child], ops, |w|);
    RunView(child, Own(ops, |w|), key);
  }

  // ---------- services ----------

  datatype Service = Service(name: string)

  type Services = map<string, Service>

  datatype ServiceOp = Provide(tid: string, service: Service) | Withdraw(tid: string)

  function ApplyService(m: Services, op: ServiceOp): Services {
    match op
    case Provide(tid, service) => m[tid := service]
    case Withdraw(tid) => m - {tid}
  }

  function RunServices(m: Services, ops: seq<ServiceOp>): Services {
    if ops == [] then m else ApplyService(RunServices(m, ops[..|ops| - 1]), ops[|ops| - 1])
  }

  predicate LastIsWithdraw(ops: seq<ServiceOp>, tid: string) {
    if ops == [] then false
    else if ops[|ops| - 1].tid == tid then ops[|ops| - 1].Withdraw?
    else LastIsWithdraw(ops[..|ops| - 1], tid)
  }

  predicate Touched(ops: seq<ServiceOp>, tid: string) {
    if ops == [] then false else ops[|ops| - 1].tid == tid || Touched(ops[..|ops| - 1], tid)
  }

  lemma {:induction false} ServiceAfter(m: Services, ops: seq<ServiceOp>, tid: string)
    ensures !Touched(ops, tid) ==>
              (tid in RunServices(m, ops) <==> tid in m) && (tid in m ==> RunServices(m, ops)[tid] == m[tid])
    ensures LastIsWithdraw(ops, tid) ==> tid !in RunServices(m, ops)
  {
    if ops != [] {
      ServiceAfter(m, ops[..|ops| - 1], tid);
    }
  }

  /** Services are not reversible the way subscriptions are: once every registration is dropped
      again the table is as before exactly when nothing that was there has been overridden. */
  lemma {:induction false} ServicesRestoredIff(m: Services, ops: seq<ServiceOp>)
    requires forall tid :: Touched(ops, tid) ==> LastIsWithdraw(ops, tid)
    ensures RunServices(m, ops) == m <==> forall tid :: tid in m ==> !Touched(ops, tid)
  {
    var after := RunServices(m, ops);
    forall tid
      ensures Touched(ops, tid) ==> tid !in after
      ensures !Touched(ops, tid) ==> (tid in after <==> tid in m) && (tid in m ==> after[tid] == m[tid])
    {
      ServiceAfter(m, ops, tid);
    }
    if forall tid :: tid in m ==> !Touched(ops, tid) {
      assert forall tid :: tid in after <==> tid in m;
    }
  }

  /** Overriding a service and dropping the override loses the original. */
  lemma {:induction false} OverrideLoses(m: Services, tid: string, service: Service)
    requires tid in m
    ensures RunServices(m, [Provide(tid, service), Withdraw(tid)]) == m - {tid} != m
  {
    var ops := [Provide(tid, service), Withdraw(tid)];
    assert ops[..1] == [Provide(tid, service)] && ops[..1][..0] == [];
    assert RunServices(m, ops[..1]) == m[tid := service];
    assert tid in m && tid !in m - {tid};
  }

  // ---------- the context ----------

  class AppContext {
    var services: Services
    const handlers: HandlerTable

    constructor ()
      ensures services == map[] && fresh(handlers) && handlers.Value() == EMPTY_TABLE
    {
      services := map[];
      handlers := new HandlerTable();
    }

    constructor ForkFrom(parent: AppContext)
      ensures services == parent.services && fresh(handlers) && IsFork(parent.handlers.Value(), handlers.Value())
    {
      services := parent.services;
      handlers := new HandlerTable.InheritFrom(parent.handlers);
    }

    /** Shares what there is; from here on the two contexts change apart. */
    method ForkContext() returns (child: AppContext)
      ensures fresh(child) && fresh(child.handlers)
      ensures child.services == services && IsFork(handlers.Value(), child.handlers.Value())
    {
      child := new AppContext.ForkFrom(this);
    }

    method ProvideService(tid: string, service: Service)
      modifies this`services
      ensures services == ApplyService(old(services), Provide(tid, service))
    {
      services := services[tid := service];
    }

    method WithdrawService(tid: string)
      modifies this`services
      ensures services == ApplyService(old(services), Withdraw(tid)) && tid !in services
    {
      services := services - {tid};
    }
  }
}
