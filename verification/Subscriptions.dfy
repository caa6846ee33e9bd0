/** Event subscriptions and services of a context (`harness-core/src/event.rs`,
    `harness-core/src/context.rs`): reversible registrations and isolated forks. */
module Subscriptions {

  datatype Bucket = Emit | Parallel | Serial | Waterfall

  /** A list of subscriptions: one per bucket and event type. */
  datatype Key = Key(bucket: Bucket, etype: string)

  datatype Handler = Handler(name: string)

  datatype Sub = Sub(id: nat, handler: Handler)

  datatype Table = Table(subs: map<Key, seq<Sub>>, next: nat)

  const EMPTY_TABLE := Table(map[], 1)

  function View(t: Table, key: Key): seq<Sub> {
    if key in t.subs then t.subs[key] else []
  }

  /** Ids are below the counter, rise within a list, and occur once in the whole table. */
  ghost predicate Well(t: Table) {
    && t.next >= 1
    && (forall key, i :: 0 <= i < |View(t, key)| ==> View(t, key)[i].id < t.next)
    && (forall key, i, j :: 0 <= i < j < |View(t, key)| ==> View(t, key)[i].id < View(t, key)[j].id)
    && (forall k, l, i, j :: 0 <= i < |View(t, k)| && 0 <= j < |View(t, l)| && View(t, k)[i].id == View(t, l)[j].id ==>
          k == l)
  }

  // ---------- operations ----------

  function Add(t: Table, key: Key, handler: Handler): Table {
    Table(t.subs[key := View(t, key) + [Sub(t.next, handler)]], t.next + 1)
  }

  function Without(subs: seq<Sub>, id: nat): seq<Sub> {
    if subs == [] then []
    else (if subs[0].id != id then [subs[0]] else []) + Without(subs[1..], id)
  }

  function Remove(t: Table, key: Key, id: nat): Table {
    if key in t.subs then t.(subs := t.subs[key := Without(t.subs[key], id)]) else t
  }

  function MaxOf(subs: seq<Sub>): (m: nat)
    ensures forall i :: 0 <= i < |subs| ==> subs[i].id <= m
    ensures m > 0 ==> exists i :: 0 <= i < |subs| && subs[i].id == m
  {
    if subs == [] then 0
    else
      var rest := MaxOf(subs[1..]);
      if subs[0].id > rest then subs[0].id
      else
        assert rest > 0 ==> exists i :: 0 < i < |subs| && subs[i].id == rest by {
          if rest > 0 {
            var i :| 0 <= i < |subs[1..]| && subs[1..][i].id == rest;
            assert subs[i + 1].id == rest;
          }
        }
        rest
  }

  /** The largest id in use, or 0. */
  ghost predicate IsMaxId(subs: map<Key, seq<Sub>>, m: nat) {
    && (forall key, i :: key in subs && 0 <= i < |subs[key]| ==> subs[key][i].id <= m)
    && (m > 0 ==> exists key, i :: key in subs && 0 <= i < |subs[key]| && subs[key][i].id == m)
  }

  ghost predicate IsFork(parent: Table, child: Table) {
    child.subs == parent.subs && child.next >= 1 && IsMaxId(parent.subs, child.next - 1)
  }

  lemma {:induction false} WithoutFrom(all: seq<Sub>, i: nat, id: nat)
    requires i < |all|
    ensures Without(all[i..], id) == if all[i].id != id then [all[i]] + Without(all[i + 1..], id) else Without(all[i + 1..], id)
  {
    assert all[i..][1..] == all[i + 1..];
  }

  lemma {:induction false} WithoutEnd(all: seq<Sub>, id: nat)
    ensures Without(all[|all|..], id) == [] && all[0..] == all
  {
  }

  // ---------- the table ----------

  class HandlerTable {
    var subs: map<Key, seq<Sub>>
    var next: nat

    ghost function Value(): Table
      reads this
    {
      Table(subs, next)
    }

    constructor ()
      ensures Value() == EMPTY_TABLE
    {
      subs, next := map[], 1;
    }

    constructor InheritFrom(parent: HandlerTable)
      ensures IsFork(parent.Value(), Value())
    {
      var best := 0;
      var left := parent.subs.Keys;
      while left != {}
        invariant left <= parent.subs.Keys
        invariant IsMaxId(parent.subs - left, best)
        decreases left
      {
        var key :| key in left;
        var m := MaxOf(parent.subs[key]);
        MaxGrows(parent.subs, left, key, best, m);
        best := if m > best then m else best;
        left := left - {key};
      }
      assert parent.subs - left == parent.subs;
      subs, next := parent.subs, best + 1;
    }

    method Subscribe(key: Key, handler: Handler) returns (id: nat)
      modifies this
      ensures id == old(next) && Value() == Add(old(Value()), key, handler)
    {
      id := next;
      next := next + 1;
      subs := subs[key := (if key in subs then subs[key] else []) + [Sub(id, handler)]];
    }

    method Unsubscribe(key: Key, id: nat)
      modifies this`subs
      ensures Value() == Remove(old(Value()), key, id)
    {
      hide Without;
      if key in subs {
        var kept := [];
        var all := subs[key];
        for i := 0 to |all|
          invariant subs == old(subs)
          invariant Without(all, id) == kept + Without(all[i..], id)
        {
          WithoutFrom(all, i, id);
          if all[i].id != id {
            kept := kept + [all[i]];
          }
        }
        WithoutEnd(all, id);
        assert kept + [] == kept;
        subs := subs[key := kept];
      }
    }

    /** Handlers of an event, in the order they were registered. */
    method Collect(key: Key) returns (handlers: seq<Handler>)
      ensures |handlers| == |View(Value(), key)|
      ensures forall i :: 0 <= i < |handlers| ==> handlers[i] == View(Value(), key)[i].handler
    {
      var all := if key in subs then subs[key] else [];
      handlers := seq(|all|, i requires 0 <= i < |all| => all[i].handler);
    }
  }

  lemma {:induction false} MaxGrows(subs: map<Key, seq<Sub>>, left: set<Key>, key: Key, best: nat, m: nat)
    requires key in left && left <= subs.Keys && IsMaxId(subs - left, best) && m == MaxOf(subs[key])
    ensures IsMaxId(subs - (left - {key}), if m > best then m else best)
  {
    var more := subs - (left - {key});
    assert key in more && more[key] == subs[key];
    forall k, i | k in more && 0 <= i < |more[k]|
      ensures more[k][i].id <= if m > best then m else best
    {
      assert k != key ==> k in subs - left && (subs - left)[k][i].id <= best;
    }
    if m > best {
      var i :| 0 <= i < |subs[key]| && subs[key][i].id == m;
      assert more[key][i].id == m;
    } else if best > 0 {
      var k, i :| k in subs - left && 0 <= i < |(subs - left)[k]| && (subs - left)[k][i].id == best;
      assert k in more && more[k][i].id == best;
    }
  }

  // ---------- every operation keeps the table well ----------

  /** A subscription of the larger table is an old one in its place, or the new one at the end. */
  lemma {:induction false} AddedAt(t: Table, key: Key, handler: Handler, k: Key, i: nat)
    requires i < |View(Add(t, key, handler), k)|
    ensures i < |View(t, k)| ==> View(Add(t, key, handler), k)[i] == View(t, k)[i]
    ensures i >= |View(t, k)| ==> k == key && i == |View(t, k)| && View(Add(t, key, handler), k)[i].id == t.next
  {
  }

  lemma {:induction false} AddKeepsWell(t: Table, key: Key, handler: Handler)
    requires Well(t)
    ensures Well(Add(t, key, handler))
  {
    var u := Add(t, key, handler);
    assert u.next == t.next + 1;
    hide View, Add;
    forall k, i | 0 <= i < |View(u, k)|
      ensures i < |View(t, k)| ==> View(u, k)[i] == View(t, k)[i]
      ensures i >= |View(t, k)| ==> k == key && i == |View(t, k)| && View(u, k)[i].id == t.next
    {
      AddedAt(t, key, handler, k, i);
    }
  }

  /** What is left keeps its order, and only the id is gone. */
  lemma {:induction false} WithoutIs(subs: seq<Sub>, id: nat)
    ensures forall s :: s in Without(subs, id) <==> s in subs && s.id != id
    ensures (forall i, j :: 0 <= i < j < |subs| ==> subs[i].id < subs[j].id) ==>
              forall i, j :: 0 <= i < j < |Without(subs, id)| ==> Without(subs, id)[i].id < Without(subs, id)[j].id
  {
    if subs != [] {
      WithoutIs(subs[1..], id);
      var rest := Without(subs[1..], id);
      assert forall s :: s in subs <==> s == subs[0] || s in subs[1..];
      if forall i, j :: 0 <= i < j < |subs| ==> subs[i].id < subs[j].id {
        forall j | 0 <= j < |rest|
          ensures subs[0].id < rest[j].id
        {
          assert rest[j] in subs[1..];
        }
      }
    }
  }

  lemma {:induction false} RemovedView(t: Table, key: Key, id: nat, k: Key)
    ensures View(Remove(t, key, id), k) == if k == key then Without(View(t, key), id) else View(t, k)
  {
  }

  lemma {:induction false} RemoveKeepsWell(t: Table, key: Key, id: nat)
    requires Well(t)
    ensures Well(Remove(t, key, id))
  {
    var u := Remove(t, key, id);
    assert u.next == t.next;
    WithoutIs(View(t, key), id);
    hide View, Remove, Without;
    forall k
      ensures View(u, k) == if k == key then Without(View(t, key), id) else View(t, k)
    {
      RemovedView(t, key, id, k);
    }
    forall k, i | 0 <= i < |View(u, k)|
      ensures exists j :: 0 <= j < |View(t, k)| && View(t, k)[j] == View(u, k)[i]
    {
      if k == key {
        assert View(u, k)[i] in Without(View(t, key), id);
        assert View(u, k)[i] in View(t, k);
      } else {
        assert View(t, k)[i] == View(u, k)[i];
      }
    }
  }

  lemma {:induction false} ForkKeepsWell(parent: Table, child: Table)
    requires Well(parent) && IsFork(parent, child)
    ensures Well(child)
    ensures forall key :: View(child, key) == View(parent, key)
  {
    forall key, i | 0 <= i < |View(child, key)|
      ensures View(child, key)[i].id < child.next
    {
      assert key in parent.subs && parent.subs[key][i].id <= child.next - 1;
    }
    assert forall key :: View(child, key) == View(parent, key);
  }

  // ---------- runs on one table ----------

  datatype TableOp = Register(key: Key, handler: Handler) | Drop(key: Key, id: nat)

  function Apply(t: Table, op: TableOp): Table {
    match op
    case Register(key, handler) => Add(t, key, handler)
    case Drop(key, id) => Remove(t, key, id)
  }

  function Run(t: Table, ops: seq<TableOp>): Table
    decreases |ops|
  {
    if ops == [] then t else Run(Apply(t, ops[0]), ops[1..])
  }

  /** Whether a registration is dropped in a run. */
  ghost predicate Dropped(ops: seq<TableOp>, key: Key, id: nat) {
    Drop(key, id) in ops
  }

  /** A registration exists before it is dropped. */
  predicate DropsAreLate(next: nat, ops: seq<TableOp>)
    decreases |ops|
  {
    if ops == [] then true
    else
      && (ops[0].Drop? ==> ops[0].id < next)
      && DropsAreLate(if ops[0].Register? then next + 1 else next, ops[1..])
  }

  /** What a run registers under a key, with the ids it hands out. */
  function Registered(next: nat, ops: seq<TableOp>, key: Key): seq<Sub>
    decreases |ops|
  {
    if ops == [] then []
    else if ops[0].Drop? then Registered(next, ops[1..], key)
    else
      (if ops[0].key == key then [Sub(next, ops[0].handler)] else [])
      + Registered(next + 1, ops[1..], key)
  }

  ghost function Live(subs: seq<Sub>, ops: seq<TableOp>, key: Key): seq<Sub> {
    if subs == [] then []
    else (if Dropped(ops, key, subs[0].id) then [] else [subs[0]]) + Live(subs[1..], ops, key)
  }

  lemma {:induction false} LiveAppend(a: seq<Sub>, b: seq<Sub>, ops: seq<TableOp>, key: Key)
    ensures Live(a + b, ops, key) == Live(a, ops, key) + Live(b, ops, key)
  {
    if a == [] {
      assert a + b == b;
    } else {
      assert (a + b)[1..] == a[1..] + b;
      LiveAppend(a[1..], b, ops, key);
    }
  }

  /** One operation earlier: a drop takes its subscription out beforehand. */
  lemma {:induction false} LiveFirst(subs: seq<Sub>, ops: seq<TableOp>, key: Key)
    requires ops != []
    ensures ops[0].Register? || ops[0].key != key ==> Live(subs, ops, key) == Live(subs, ops[1..], key)
    ensures ops[0].Drop? && ops[0].key == key ==>
              Live(subs, ops, key) == Live(Without(subs, ops[0].id), ops[1..], key)
  {
    if subs != [] {
      LiveFirst(subs[1..], ops, key);
      var id := subs[0].id;
      assert Dropped(ops, key, id) <==> ops[0] == Drop(key, id) || Dropped(ops[1..], key, id);
      if ops[0].Drop? && ops[0].key == key {
        var rest := Without(subs[1..], ops[0].id);
        if id == ops[0].id {
          assert Without(subs, ops[0].id) == rest;
        } else {
          assert Without(subs, ops[0].id)[1..] == rest;
        }
      }
    }
  }

  lemma {:induction false} NoEarlyDrop(next: nat, ops: seq<TableOp>, n: nat, subs: seq<Sub>, key: Key)
    requires ops != [] && DropsAreLate(next, ops) && n >= next
    requires forall s :: s in subs ==> s.id >= n
    ensures Live(subs, ops, key) == Live(subs, ops[1..], key)
  {
    if subs != [] {
      assert subs[0] in subs;
      NoEarlyDrop(next, ops, n, subs[1..], key);
      assert Dropped(ops, key, subs[0].id) <==> ops[0] == Drop(key, subs[0].id) || Dropped(ops[1..], key, subs[0].id);
    }
  }

  lemma {:induction false} RegisteredIds(next: nat, ops: seq<TableOp>, key: Key)
    ensures forall s :: s in Registered(next, ops, key) ==> s.id >= next
    decreases |ops|
  {
    if ops != [] {
      RegisteredIds(if ops[0].Register? then next + 1 else next, ops[1..], key);
    }
  }

  /** After any run a list holds what it held and what was registered, in that order, without
      exactly what was dropped. */
  lemma {:induction false} RunView(t: Table, ops: seq<TableOp>, key: Key)
    requires DropsAreLate(t.next, ops)
    ensures View(Run(t, ops), key) == Live(View(t, key) + Registered(t.next, ops, key), ops, key)
    decreases |ops|
  {
    var added := Registered(t.next, ops, key);
    if ops == [] {
      NothingDropped(View(t, key) + [], key);
      assert View(t, key) + [] == View(t, key);
    } else {
      var u := Apply(t, ops[0]);
      var later := Registered(u.next, ops[1..], key);
      RunView(u, ops[1..], key);
      RunViewStep(t, ops, key, later);
    }
  }

  lemma {:induction false} NothingDropped(subs: seq<Sub>, key: Key)
    ensures Live(subs, [], key) == subs
  {
    if subs != [] {
      NothingDropped(subs[1..], key);
    }
  }

  lemma {:induction false} RunViewStep(t: Table, ops: seq<TableOp>, key: Key, later: seq<Sub>)
    requires ops != [] && DropsAreLate(t.next, ops)
    requires later == Registered(Apply(t, ops[0]).next, ops[1..], key)
    ensures Live(View(Apply(t, ops[0]), key) + later, ops[1..], key)
            == Live(View(t, key) + Registered(t.next, ops, key), ops, key)
  {
    hide Live, Without, Dropped;
    var rest := ops[1..];
    var u := Apply(t, ops[0]);
    var view := View(t, key);
    RegisteredIds(u.next, rest, key);
    NoEarlyDrop(t.next, ops, t.next, later, key);
    LiveFirst(view, ops, key);
    if ops[0].Register? && ops[0].key == key {
      var s := Sub(t.next, ops[0].handler);
      assert Registered(t.next, ops, key) == [s] + later;
      assert View(u, key) + later == view + ([s] + later);
      LiveFirst([s], ops, key);
      LiveAppend([s], later, rest, key);
      LiveAppend([s], later, ops, key);
      LiveAppend(view, [s] + later, rest, key);
      LiveAppend(view, [s] + later, ops, key);
    } else {
      assert Registered(t.next, ops, key) == later;
      LiveAppend(View(u, key), later, rest, key);
      LiveAppend(view, later, ops, key);
      OtherView(t, ops[0], key);
    }
  }

  lemma {:induction false} OtherView(t: Table, op: TableOp, key: Key)
    requires !(op.Register? && op.key == key)
    ensures View(Apply(t, op), key) == if op.key == key then Without(View(t, key), op.id) else View(t, key)
  {
  }
}
