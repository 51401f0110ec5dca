/**
 What it takes for modules to live in one host, and the ownership tables that decide it
 one mount at a time.
 */
module Mounting {
  import opened Sorting
  import opened Evidence
  import opened EffectRow
  import opened HostModule
  import opened Composition
  import Schema

  // Two modules claim nothing in common and agree on the schemas they share.
  ghost predicate Compatible(a: Module, b: Module) {
    && a.id != b.id
    && (forall d, e :: d in a.operations && e in b.operations ==> d.name != e.name)
    && (forall x :: x in a.namespaces ==> x !in b.namespaces)
    && (forall x :: x in a.jobs ==> x !in b.jobs)
    && (forall s, u :: s in a.subscriptions && u in b.subscriptions ==> s.id != u.id)
    && (forall s, u :: s in a.bindings && u in b.bindings ==> s.kind != u.kind)
    && Agree(a, b)
  }

  ghost predicate Mountable(ms: seq<Module>) { forall i, j :: 0 <= i < j < |ms| ==> Compatible(ms[i], ms[j]) }

  lemma CompatibleSymmetric(a: Module, b: Module)
    requires Compatible(a, b)
    ensures Compatible(b, a)
  {
  }

  lemma MountableIds(ms: seq<Module>)
    requires Mountable(ms)
    ensures KeysDistinct(ModuleId, ms)
  {
    forall i, j | 0 <= i < j < |ms| ensures ModuleId(ms[i]) != ModuleId(ms[j]) { assert Compatible(ms[i], ms[j]); }
  }

  // Any two different members are compatible.
  lemma MountableMembers(ms: seq<Module>, a: Module, b: Module)
    requires Mountable(ms) && a in ms && b in ms && a != b
    ensures Compatible(a, b)
  {
    var i :| 0 <= i < |ms| && ms[i] == a;
    var j :| 0 <= j < |ms| && ms[j] == b;
    if j < i { CompatibleSymmetric(b, a); }
  }

  /** Whether modules can be mounted together does not depend on the mount order. */
  lemma MountableForgetsOrder(ms: seq<Module>, ns: seq<Module>)
    requires multiset(ms) == multiset(ns) && Mountable(ms)
    ensures Mountable(ns)
  {
    SameMembers(ms, ns);
    MountableIds(ms);
    KeysDistinctPermute(ModuleId, ms, ns);
    forall i, j | 0 <= i < j < |ns| ensures Compatible(ns[i], ns[j]) {
      assert ModuleId(ns[i]) != ModuleId(ns[j]);
      assert ns[i] in ms && ns[j] in ms;
      MountableMembers(ms, ns[i], ns[j]);
    }
  }

  lemma MountableExtends(ms: seq<Module>, m: Module)
    requires Mountable(ms)
    ensures Mountable(ms + [m]) <==> forall a :: a in ms ==> Compatible(a, m)
  {
    var ns := ms + [m];
    if Mountable(ns) {
      forall a | a in ms ensures Compatible(a, m) {
        var i :| 0 <= i < |ms| && ms[i] == a;
        assert Compatible(ns[i], ns[|ms|]);
      }
    }
    if forall a :: a in ms ==> Compatible(a, m) {
      forall i, j | 0 <= i < j < |ns| ensures Compatible(ns[i], ns[j]) {
        if j < |ms| { assert Compatible(ms[i], ms[j]); } else { assert ms[i] in ms; }
      }
    }
  }

  lemma MountableAgree(encode: Schema.Encoder, ms: seq<Module>)
    requires Mountable(ms) && forall m :: m in ms ==> Coherent(encode, m)
    ensures AllAgree(ms)
  {
    forall a, b | a in ms && b in ms ensures Agree(a, b) {
      if a == b {
        forall s, u | s in a.schemas && u in a.schemas && KeyOf(s) == KeyOf(u) ensures s.encoding == u.encoding {
          KeySortedInjective(KeyLe, KeyOf, a.schemas, s, u);
        }
      } else {
        MountableMembers(ms, a, b);
      }
    }
  }

  // ----- Ownership tables -----

  // What each module files in each table, in the order it is filed.
  function OperationItems(m: Module): (r: seq<(string, Row)>)
    ensures |r| == |m.operations| && forall i :: 0 <= i < |r| ==> r[i] == (m.operations[i].name, m.operations[i].row)
  {
    seq(|m.operations|, i requires 0 <= i < |m.operations| => (m.operations[i].name, m.operations[i].row))
  }

  function NamespaceItems(m: Module): (r: seq<(string, string)>)
    ensures |r| == |m.namespaces| && forall i :: 0 <= i < |r| ==> r[i] == (m.namespaces[i], m.id)
  {
    seq(|m.namespaces|, i requires 0 <= i < |m.namespaces| => (m.namespaces[i], m.id))
  }

  function JobItems(m: Module): (r: seq<(string, string)>)
    ensures |r| == |m.jobs| && forall i :: 0 <= i < |r| ==> r[i] == (m.jobs[i], m.id)
  {
    seq(|m.jobs|, i requires 0 <= i < |m.jobs| => (m.jobs[i], m.id))
  }

  function SubscriptionItems(m: Module): (r: seq<(string, string)>)
    ensures |r| == |m.subscriptions| && forall i :: 0 <= i < |r| ==> r[i] == (m.subscriptions[i].id, m.id)
  {
    seq(|m.subscriptions|, i requires 0 <= i < |m.subscriptions| => (m.subscriptions[i].id, m.id))
  }

  function BindingItems(m: Module): (r: seq<(Kind, (string, string))>)
    ensures |r| == |m.bindings| && forall i :: 0 <= i < |r| ==> r[i] == (m.bindings[i].kind, (m.id, m.bindings[i].payloadRef))
  {
    seq(|m.bindings|, i requires 0 <= i < |m.bindings| => (m.bindings[i].kind, (m.id, m.bindings[i].payloadRef)))
  }

  function ItemKey<K, V>(item: (K, V)): K { item.0 }

  ghost predicate Holds<K, V>(t: map<K, V>, k: K, v: V) { k in t && t[k] == v }

  // Some module of `ms` files this item.
  ghost predicate Filed<K, V>(ms: seq<Module>, items: Module -> seq<(K, V)>, k: K, v: V) {
    exists m :: m in ms && (k, v) in items(m)
  }

  // The table holds exactly what the modules filed.
  ghost predicate Owned<K(!new), V(!new)>(t: map<K, V>, ms: seq<Module>, items: Module -> seq<(K, V)>) {
    forall k, v :: Holds(t, k, v) <==> Filed(ms, items, k, v)
  }

  // No item of `m` has a key already filed.
  ghost predicate Vacant<K, V>(t: map<K, V>, items: seq<(K, V)>) { forall i :: 0 <= i < |items| ==> items[i].0 !in t }

  ghost predicate Disjoint<K(!new), V(!new)>(items: Module -> seq<(K, V)>, a: Module, b: Module) {
    forall p, q :: p in items(a) && q in items(b) ==> p.0 != q.0
  }

  lemma VacantExact<K(!new), V(!new)>(t: map<K, V>, ms: seq<Module>, items: Module -> seq<(K, V)>, m: Module)
    requires Owned(t, ms, items)
    ensures Vacant(t, items(m)) <==> forall a :: a in ms ==> Disjoint(items, a, m)
  {
    if Vacant(t, items(m)) {
      forall a, p, q | a in ms && p in items(a) && q in items(m) ensures p.0 != q.0 {
        assert (p.0, p.1) in items(a);
        assert Filed(ms, items, p.0, p.1);
        assert Holds(t, p.0, p.1);
        var i :| 0 <= i < |items(m)| && items(m)[i] == q;
      }
    }
    if forall a :: a in ms ==> Disjoint(items, a, m) {
      forall i | 0 <= i < |items(m)| ensures items(m)[i].0 !in t {
        var q := items(m)[i];
        forall v ensures !Filed(ms, items, q.0, v) {
          assert forall a :: a in ms && (q.0, v) in items(a) ==> Disjoint(items, a, m);
        }
        assert q.0 in t ==> Holds(t, q.0, t[q.0]);
      }
    }
  }

  // `t` is `t0` with these items filed.
  ghost predicate Filled<K(!new), V(!new)>(t0: map<K, V>, items: seq<(K, V)>, t: map<K, V>) {
    forall k, v :: Holds(t, k, v) <==> Holds(t0, k, v) || (k, v) in items
  }

  lemma OwnedExtends<K(!new), V(!new)>(t0: map<K, V>, ms: seq<Module>, items: Module -> seq<(K, V)>, m: Module, t: map<K, V>)
    requires Owned(t0, ms, items) && Filled(t0, items(m), t)
    ensures Owned(t, ms + [m], items)
  {
    forall k, v ensures Holds(t, k, v) <==> Filed(ms + [m], items, k, v) {
      assert Holds(t0, k, v) <==> Filed(ms, items, k, v);
      assert forall a :: a in ms + [m] <==> a in ms || a == m;
    }
  }

  // The `i`-th item is the first whose key is taken.
  ghost predicate FirstTaken<K, V>(t0: map<K, V>, items: seq<(K, V)>, i: nat)
    requires i < |items|
  {
    items[i].0 in t0 && forall j :: 0 <= j < i ==> items[j].0 !in t0
  }

  // File items until one finds its key taken, as each of the mount loops does.
  method FileItems<K(!new, ==), V(!new)>(t0: map<K, V>, items: seq<(K, V)>) returns (t: map<K, V>, taken: Option<(K, V)>)
    requires KeysDistinct(ItemKey<K, V>, items)
    ensures taken.None? <==> Vacant(t0, items)
    ensures taken.None? ==> Filled(t0, items, t)
    ensures taken.Some? ==> exists i :: 0 <= i < |items| && items[i] == taken.value && FirstTaken(t0, items, i)
  {
    t := t0;
    for i := 0 to |items|
      invariant Filled(t0, items[..i], t)
      invariant forall j :: 0 <= j < i ==> items[j].0 !in t0
    {
      var (k, v) := items[i];
      assert forall j :: 0 <= j < i ==> ItemKey(items[j]) != ItemKey(items[i]);
      assert k in t <==> k in t0 by { TakenBefore(t0, items, i, t); }
      if k in t {
        assert items[i] == (k, v) && FirstTaken(t0, items, i);
        return t, Some((k, v));
      }
      FilledStep(t0, items, i, t);
      t := t[k := v];
    }
    assert items[..|items|] == items;
    taken := None;
  }

  lemma TakenBefore<K(!new), V(!new)>(t0: map<K, V>, items: seq<(K, V)>, i: nat, t: map<K, V>)
    requires i < |items| && Filled(t0, items[..i], t)
    requires forall j :: 0 <= j < i ==> ItemKey(items[j]) != ItemKey(items[i])
    ensures items[i].0 in t <==> items[i].0 in t0
  {
    var k := items[i].0;
    forall v ensures (k, v) !in items[..i] {}
    assert k in t ==> Holds(t, k, t[k]);
    assert k in t0 ==> Holds(t0, k, t0[k]);
  }

  lemma FilledStep<K(!new), V(!new)>(t0: map<K, V>, items: seq<(K, V)>, i: nat, t: map<K, V>)
    requires i < |items| && Filled(t0, items[..i], t) && items[i].0 !in t
    ensures Filled(t0, items[..i + 1], t[items[i].0 := items[i].1])
  {
    var (key, value) := items[i];
    var t' := t[key := value];
    assert items[..i + 1] == items[..i] + [items[i]];
    forall k, v ensures Holds(t', k, v) <==> Holds(t0, k, v) || (k, v) in items[..i + 1] {
      assert Holds(t, k, v) <==> Holds(t0, k, v) || (k, v) in items[..i];
    }
  }

  // ----- One mount -----

  datatype Tables = Tables(
    ids: set<string>,
    rows: map<string, Row>,
    namespaces: map<string, string>,
    jobs: map<string, string>,
    subscriptions: map<string, string>,
    bindings: map<Kind, (string, string)>)

  // The tables are the exact record of the modules mounted so far.
  ghost predicate Records(t: Tables, ms: seq<Module>) {
    && t.ids == (set m | m in ms :: m.id)
    && Owned(t.rows, ms, OperationItems)
    && Owned(t.namespaces, ms, NamespaceItems)
    && Owned(t.jobs, ms, JobItems)
    && Owned(t.subscriptions, ms, SubscriptionItems)
    && Owned(t.bindings, ms, BindingItems)
  }

  // Nothing `m` claims is taken.
  ghost predicate AllVacant(t: Tables, m: Module) {
    && m.id !in t.ids
    && Vacant(t.rows, OperationItems(m))
    && Vacant(t.namespaces, NamespaceItems(m))
    && Vacant(t.jobs, JobItems(m))
    && Vacant(t.subscriptions, SubscriptionItems(m))
    && Vacant(t.bindings, BindingItems(m))
  }

  ghost predicate AllFilled(t: Tables, m: Module, t': Tables) {
    && t'.ids == t.ids + {m.id}
    && Filled(t.rows, OperationItems(m), t'.rows)
    && Filled(t.namespaces, NamespaceItems(m), t'.namespaces)
    && Filled(t.jobs, JobItems(m), t'.jobs)
    && Filled(t.subscriptions, SubscriptionItems(m), t'.subscriptions)
    && Filled(t.bindings, BindingItems(m), t'.bindings)
  }

  lemma RecordsExtend(t: Tables, ms: seq<Module>, m: Module, t': Tables)
    requires Records(t, ms) && AllFilled(t, m, t')
    ensures Records(t', ms + [m])
  {
    OwnedExtends(t.rows, ms, OperationItems, m, t'.rows);
    OwnedExtends(t.namespaces, ms, NamespaceItems, m, t'.namespaces);
    OwnedExtends(t.jobs, ms, JobItems, m, t'.jobs);
    OwnedExtends(t.subscriptions, ms, SubscriptionItems, m, t'.subscriptions);
    OwnedExtends(t.bindings, ms, BindingItems, m, t'.bindings);
    assert forall a :: a in ms + [m] <==> a in ms || a == m;
  }

  lemma DisjointOperations(a: Module, b: Module)
    ensures Disjoint(OperationItems, a, b) <==> forall d, e :: d in a.operations && e in b.operations ==> d.name != e.name
  {
    var p, q := OperationItems(a), OperationItems(b);
    if Disjoint(OperationItems, a, b) {
      forall d, e | d in a.operations && e in b.operations ensures d.name != e.name {
        var i :| 0 <= i < |a.operations| && a.operations[i] == d;
        var j :| 0 <= j < |b.operations| && b.operations[j] == e;
        assert p[i] in p && q[j] in q && p[i].0 != q[j].0;
      }
    }
  }

  lemma DisjointNamespaces(a: Module, b: Module)
    ensures Disjoint(NamespaceItems, a, b) <==> forall x :: x in a.namespaces ==> x !in b.namespaces
  {
    var p, q := NamespaceItems(a), NamespaceItems(b);
    if Disjoint(NamespaceItems, a, b) {
      forall x, y | x in a.namespaces && y in b.namespaces ensures x != y {
        var i :| 0 <= i < |a.namespaces| && a.namespaces[i] == x;
        var j :| 0 <= j < |b.namespaces| && b.namespaces[j] == y;
        assert p[i] in p && q[j] in q && p[i].0 != q[j].0;
      }
    } else {
      var u, v :| u in p && v in q && u.0 == v.0;
      assert u.0 in a.namespaces && u.0 in b.namespaces;
    }
  }

  lemma DisjointJobs(a: Module, b: Module)
    ensures Disjoint(JobItems, a, b) <==> forall x :: x in a.jobs ==> x !in b.jobs
  {
    var p, q := JobItems(a), JobItems(b);
    if Disjoint(JobItems, a, b) {
      forall x, y | x in a.jobs && y in b.jobs ensures x != y {
        var i :| 0 <= i < |a.jobs| && a.jobs[i] == x;
        var j :| 0 <= j < |b.jobs| && b.jobs[j] == y;
        assert p[i] in p && q[j] in q && p[i].0 != q[j].0;
      }
    } else {
      var u, v :| u in p && v in q && u.0 == v.0;
      assert u.0 in a.jobs && u.0 in b.jobs;
    }
  }

  lemma DisjointSubscriptions(a: Module, b: Module)
    ensures Disjoint(SubscriptionItems, a, b) <==>
            forall s, u :: s in a.subscriptions && u in b.subscriptions ==> s.id != u.id
  {
    var p, q := SubscriptionItems(a), SubscriptionItems(b);
    if Disjoint(SubscriptionItems, a, b) {
      forall s, u | s in a.subscriptions && u in b.subscriptions ensures s.id != u.id {
        var i :| 0 <= i < |a.subscriptions| && a.subscriptions[i] == s;
        var j :| 0 <= j < |b.subscriptions| && b.subscriptions[j] == u;
        assert p[i] in p && q[j] in q && p[i].0 != q[j].0;
      }
    }
  }

  lemma DisjointBindings(a: Module, b: Module)
    ensures Disjoint(BindingItems, a, b) <==> forall s, u :: s in a.bindings && u in b.bindings ==> s.kind != u.kind
  {
    var p, q := BindingItems(a), BindingItems(b);
    if Disjoint(BindingItems, a, b) {
      forall s, u | s in a.bindings && u in b.bindings ensures s.kind != u.kind {
        var i :| 0 <= i < |a.bindings| && a.bindings[i] == s;
        var j :| 0 <= j < |b.bindings| && b.bindings[j] == u;
        assert p[i] in p && q[j] in q && p[i].0 != q[j].0;
      }
    }
  }

  lemma CompatibleByTable(a: Module, m: Module)
    ensures Compatible(a, m) <==>
            && a.id != m.id
            && Disjoint(OperationItems, a, m) && Disjoint(NamespaceItems, a, m) && Disjoint(JobItems, a, m)
            && Disjoint(SubscriptionItems, a, m) && Disjoint(BindingItems, a, m)
            && Agree(a, m)
  {
    DisjointOperations(a, m);
    DisjointNamespaces(a, m);
    DisjointJobs(a, m);
    DisjointSubscriptions(a, m);
    DisjointBindings(a, m);
  }

  /** The tables refuse a module iff it clashes with some module mounted before. */
  lemma VacancyIsCompatibility(t: Tables, schemas: Table, ms: seq<Module>, m: Module)
    requires Records(t, ms) && Composed(schemas, ms) && AllAgree(ms)
    ensures AllVacant(t, m) && Fits(schemas, m) <==> forall a :: a in ms ==> Compatible(a, m)
  {
    VacantExact(t.rows, ms, OperationItems, m);
    VacantExact(t.namespaces, ms, NamespaceItems, m);
    VacantExact(t.jobs, ms, JobItems, m);
    VacantExact(t.subscriptions, ms, SubscriptionItems, m);
    VacantExact(t.bindings, ms, BindingItems, m);
    FitsExact(schemas, ms, m);
    forall a | a in ms ensures Compatible(a, m) <==>
            && a.id != m.id
            && Disjoint(OperationItems, a, m) && Disjoint(NamespaceItems, a, m) && Disjoint(JobItems, a, m)
            && Disjoint(SubscriptionItems, a, m) && Disjoint(BindingItems, a, m)
            && Agree(a, m)
    {
      CompatibleByTable(a, m);
    }
    assert m.id !in t.ids <==> forall a :: a in ms ==> a.id != m.id;
  }

  // What a host builder keeps between mounts.
  ghost predicate Standing(seal: Seal, encode: Schema.Encoder, ms: seq<Module>, t: Tables, schemas: Table) {
    && Mountable(ms)
    && (forall m :: m in ms ==> Coherent(encode, m) && VerifyHash(seal, m))
    && Records(t, ms)
    && Composed(schemas, ms)
  }

  lemma MountDecided(seal: Seal, encode: Schema.Encoder, ms: seq<Module>, t: Tables, schemas: Table, m: Module)
    requires Standing(seal, encode, ms, t, schemas)
    ensures AllVacant(t, m) && Fits(schemas, m) <==> forall a :: a in ms ==> Compatible(a, m)
  {
    MountableAgree(encode, ms);
    VacancyIsCompatibility(t, schemas, ms, m);
  }

  lemma MountKeepsStanding(seal: Seal, encode: Schema.Encoder, ms: seq<Module>, t: Tables, schemas: Table,
                           m: Module, t': Tables, schemas': Table)
    requires Standing(seal, encode, ms, t, schemas) && forall a :: a in ms ==> Compatible(a, m)
    requires Coherent(encode, m) && VerifyHash(seal, m)
    requires AllFilled(t, m, t') && Extended(schemas, m, |m.schemas|, schemas')
    ensures Standing(seal, encode, ms + [m], t', schemas')
  {
    MountableExtends(ms, m);
    RecordsExtend(t, ms, m, t');
    ExtendedComposes(schemas, ms, m, schemas');
  }

  // The items of a coherent module have distinct keys.
  lemma ItemsDistinct(encode: Schema.Encoder, m: Module)
    requires Coherent(encode, m)
    ensures KeysDistinct(ItemKey<string, Row>, OperationItems(m))
    ensures KeysDistinct(ItemKey<string, string>, NamespaceItems(m))
    ensures KeysDistinct(ItemKey<string, string>, JobItems(m))
    ensures KeysDistinct(ItemKey<string, string>, SubscriptionItems(m))
    ensures KeysDistinct(ItemKey<Kind, (string, string)>, BindingItems(m))
  {
    forall i, j | 0 <= i < j < |m.operations| ensures m.operations[i].name != m.operations[j].name {
      assert NameOf(m.operations[i]) != NameOf(m.operations[j]);
    }
    forall i, j | 0 <= i < j < |m.subscriptions| ensures m.subscriptions[i].id != m.subscriptions[j].id {
      assert SubscriptionId(m.subscriptions[i]) != SubscriptionId(m.subscriptions[j]);
    }
    forall i, j | 0 <= i < j < |m.bindings| ensures m.bindings[i].kind != m.bindings[j].kind {
      assert KindOf(m.bindings[i]) != KindOf(m.bindings[j]);
    }
  }

  // ----- A shared schema -----

  // A module that declares one schema and nothing else.
  function OneSchema(seal: Seal, encode: Schema.Encoder, id: string): Module {
    var s := Schema.Descriptor("s", 1, Schema.EventPayload, [], encode("s", 1, Schema.EventPayload, []));
    var m := Module(id, 1, [], [], None, [], [], [s], [], [], 0, map[], None);
    m.(digest := seal(ManifestOf(m)))
  }

  /** Two modules the builder mounts together hash to different compositions in the two
      orders, because they share a schema. */
  lemma SharedSchemaExample(seal: Seal, encode: Schema.Encoder)
    ensures var a, b := OneSchema(seal, encode, "a"), OneSchema(seal, encode, "b");
            && Coherent(encode, a) && VerifyHash(seal, a) && Coherent(encode, b) && VerifyHash(seal, b)
            && Mountable([a, b]) && !OrderBlind([a, b])
  {
    var a, b := OneSchema(seal, encode, "a"), OneSchema(seal, encode, "b");
    var s := a.schemas[0];
    OneSchemaSealed(seal, encode, "a");
    OneSchemaSealed(seal, encode, "b");
    assert s in a.schemas && s in b.schemas;
    assert Carries(a, KeyOf(s)) && Carries(b, KeyOf(s));
    assert Compatible(a, b);
    var ms := [a, b];
    MountableIds(ms);
    SharedSeesOrder(ms, 0, 1, KeyOf(s));
  }

  lemma OneSchemaSealed(seal: Seal, encode: Schema.Encoder, id: string)
    ensures Coherent(encode, OneSchema(seal, encode, id)) && VerifyHash(seal, OneSchema(seal, encode, id))
  {
    var m := OneSchema(seal, encode, id);
    assert ManifestOf(m.(digest := 0)) == ManifestOf(m);
  }
}
