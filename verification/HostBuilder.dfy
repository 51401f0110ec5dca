/**
 The host builder: mount modules one by one, then lower them into one runtime.
 */
module HostBuilder {
  import opened Evidence
  import opened EffectRow
  import opened Dispatch
  import opened HostModule
  import opened Composition
  import opened Mounting
  import opened Host
  import Schema

  // ----- Mount errors -----

  datatype MountError =
    | ModuleHashMismatch(id: string)
    | DuplicateModuleId(id: string)
    | EffectConflict(operation: string, id: string)
    | DuplicateOperation(operation: string, id: string)
    | DuplicateReceiptNamespace(namespace: string, id: string)
    | DuplicateJobKind(job: string, id: string)
    | DuplicateSubscriptionId(subscription: string, id: string)
    | DuplicateEventPayloadBinding(kind: Kind, id: string)
    | EventPayloadBindingConflict(kind: Kind, first: string, firstRef: string, id: string, secondRef: string)
    | SchemaCollision(collision: Collision)

  // The error names a real clash between the module and one mounted before it.
  ghost predicate Explains(seal: Seal, ms: seq<Module>, m: Module, e: MountError) {
    match e
    case ModuleHashMismatch(id) => id == m.id && !VerifyHash(seal, m)
    case DuplicateModuleId(id) => id == m.id && exists a :: a in ms && a.id == id
    case EffectConflict(n, id) => id == m.id && OperationClash(ms, m, n, false)
    case DuplicateOperation(n, id) => id == m.id && OperationClash(ms, m, n, true)
    case DuplicateReceiptNamespace(n, id) => id == m.id && n in m.namespaces && exists a :: a in ms && n in a.namespaces
    case DuplicateJobKind(n, id) => id == m.id && n in m.jobs && exists a :: a in ms && n in a.jobs
    case DuplicateSubscriptionId(n, id) =>
      id == m.id && exists a, s, u :: a in ms && s in a.subscriptions && u in m.subscriptions && s.id == n && u.id == n
    case DuplicateEventPayloadBinding(k, id) =>
      id == m.id && exists a, b :: a in ms && b in a.bindings && b in m.bindings && b.kind == k
    case EventPayloadBindingConflict(k, first, firstRef, id, secondRef) =>
      id == m.id && firstRef != secondRef && Binding(k, secondRef) in m.bindings
      && exists a :: a in ms && a.id == first && Binding(k, firstRef) in a.bindings
    case SchemaCollision(c) =>
      c.second == m.id && c.firstEncoding != c.secondEncoding
      && (exists s :: s in m.schemas && KeyOf(s) == c.key && s.encoding == c.secondEncoding)
      && exists a, u :: a in ms && a.id == c.first && u in a.schemas && KeyOf(u) == c.key && u.encoding == c.firstEncoding
  }

  // An operation of `m` has the name of one of `ms`, with the same or another effect row.
  ghost predicate OperationClash(ms: seq<Module>, m: Module, n: string, sameRow: bool) {
    exists a, d, e :: a in ms && d in a.operations && e in m.operations && d.name == n && e.name == n && (d.row == e.row) == sameRow
  }

  // An item found taken was filed by some module before.
  lemma TakenByOther<K(!new), V(!new)>(t: map<K, V>, ms: seq<Module>, items: Module -> seq<(K, V)>, k: K) returns (a: Module)
    requires Owned(t, ms, items) && k in t
    ensures a in ms && (k, t[k]) in items(a)
  {
    assert Holds(t, k, t[k]);
    assert Filed(ms, items, k, t[k]);
    a :| a in ms && (k, t[k]) in items(a);
  }

  lemma ExplainOperation(seal: Seal, t: map<string, Row>, ms: seq<Module>, m: Module, n: string, row: Row)
    requires Owned(t, ms, OperationItems) && (n, row) in OperationItems(m) && n in t
    ensures Explains(seal, ms, m, if t[n] != row then EffectConflict(n, m.id) else DuplicateOperation(n, m.id))
  {
    var a := TakenByOther(t, ms, OperationItems, n);
    var i :| 0 <= i < |OperationItems(a)| && OperationItems(a)[i] == (n, t[n]);
    var j :| 0 <= j < |OperationItems(m)| && OperationItems(m)[j] == (n, row);
    var d, e := a.operations[i], m.operations[j];
    assert d in a.operations && e in m.operations && d.name == n && e.name == n;
  }

  lemma ExplainNamespace(seal: Seal, t: map<string, string>, ms: seq<Module>, m: Module, item: (string, string))
    requires Owned(t, ms, NamespaceItems) && item in NamespaceItems(m) && item.0 in t
    ensures Explains(seal, ms, m, DuplicateReceiptNamespace(item.0, m.id))
  {
    var a := TakenByOther(t, ms, NamespaceItems, item.0);
  }

  lemma ExplainJob(seal: Seal, t: map<string, string>, ms: seq<Module>, m: Module, item: (string, string))
    requires Owned(t, ms, JobItems) && item in JobItems(m) && item.0 in t
    ensures Explains(seal, ms, m, DuplicateJobKind(item.0, m.id))
  {
    var a := TakenByOther(t, ms, JobItems, item.0);
  }

  lemma ExplainSubscription(seal: Seal, t: map<string, string>, ms: seq<Module>, m: Module, item: (string, string))
    requires Owned(t, ms, SubscriptionItems) && item in SubscriptionItems(m) && item.0 in t
    ensures Explains(seal, ms, m, DuplicateSubscriptionId(item.0, m.id))
  {
    var n := item.0;
    var a := TakenByOther(t, ms, SubscriptionItems, n);
    var i :| 0 <= i < |SubscriptionItems(a)| && SubscriptionItems(a)[i].0 == n;
    var j :| 0 <= j < |SubscriptionItems(m)| && SubscriptionItems(m)[j] == item;
    assert a.subscriptions[i] in a.subscriptions && m.subscriptions[j] in m.subscriptions;
  }

  lemma ExplainBinding(seal: Seal, t: map<Kind, (string, string)>, ms: seq<Module>, m: Module, item: (Kind, (string, string)))
    requires Owned(t, ms, BindingItems) && item in BindingItems(m) && item.0 in t
    ensures Explains(seal, ms, m, BindingError(m.id, item, t[item.0]))
  {
    var k := item.0;
    var a := TakenByOther(t, ms, BindingItems, k);
    var i :| 0 <= i < |BindingItems(a)| && BindingItems(a)[i] == (k, t[k]);
    var j :| 0 <= j < |BindingItems(m)| && BindingItems(m)[j] == item;
    assert a.bindings[i] in a.bindings && m.bindings[j] in m.bindings;
    assert a.bindings[i] == Binding(k, t[k].1) && m.bindings[j] == Binding(k, item.1.1);
    assert t[k].0 == a.id;
  }

  function BindingError(id: string, item: (Kind, (string, string)), first: (string, string)): MountError {
    if first.1 == item.1.1 then DuplicateEventPayloadBinding(item.0, id)
    else EventPayloadBindingConflict(item.0, first.0, first.1, id, item.1.1)
  }

  lemma ExplainSchema(seal: Seal, byKey: Table, ms: seq<Module>, m: Module, c: Collision)
    requires Composed(byKey, ms) && Collides(byKey, m, c)
    ensures Explains(seal, ms, m, SchemaCollision(c))
  {
    assert EntryFor(ms, c.key) == Some(byKey[c.key]);
    var i := EntryIsFirst(ms, c.key);
    var a, u := ms[i], SchemaOf(ms[i], c.key);
    assert a in ms && a.id == c.first && u in a.schemas && KeyOf(u) == c.key && u.encoding == c.firstEncoding;
  }

  class HostBuilder {
    const seal: Seal
    const encode: Schema.Encoder
    const decodes: Bytes -> bool
    var modules: seq<Module>
    var ids: set<string>
    var rows: map<string, Row>
    var namespaces: map<string, string>
    var jobs: map<string, string>
    var subscriptionOwners: map<string, string>
    var bindings: map<Kind, (string, string)>
    const schemas: CompositionBuilder
    var receiptSink: Option<ReceiptSink>
    var backend: Option<Backend>

    ghost function Ownership(): Tables
      reads this
    {
      Tables(ids, rows, namespaces, jobs, subscriptionOwners, bindings)
    }

    // The mounted modules fit together, and the tables say exactly what they claim.
    ghost predicate Valid()
      reads this, schemas
    {
      Standing(seal, encode, modules, Ownership(), schemas.byKey)
    }

    constructor (seal: Seal, encode: Schema.Encoder, decodes: Bytes -> bool, sink: Option<ReceiptSink>, backend: Option<Backend>)
      ensures Valid() && modules == [] && fresh(schemas)
      ensures this.seal == seal && this.encode == encode && this.decodes == decodes
      ensures receiptSink == sink && this.backend == backend
    {
      this.seal, this.encode, this.decodes := seal, encode, decodes;
      modules, ids, rows, namespaces, jobs, subscriptionOwners, bindings := [], {}, map[], map[], map[], map[], map[];
      schemas := new CompositionBuilder();
      receiptSink, this.backend := sink, backend;
    }

    // File the module's id, operations and receipt namespaces, up to the first one taken.
    method ClaimOperations(m: Module) returns (r: Result<(), MountError>)
      requires Coherent(encode, m) && Records(Ownership(), modules)
      modifies this`ids, this`rows, this`namespaces
      ensures r.Ok? <==> m.id !in old(ids) && Vacant(old(rows), OperationItems(m)) && Vacant(old(namespaces), NamespaceItems(m))
      ensures r.Ok? ==> ids == old(ids) + {m.id} && Filled(old(rows), OperationItems(m), rows)
                        && Filled(old(namespaces), NamespaceItems(m), namespaces)
      ensures r.Err? ==> Explains(seal, modules, m, r.error)
    {
      ItemsDistinct(encode, m);
      if m.id in ids { return Err(DuplicateModuleId(m.id)); }
      ids := ids + {m.id};
      var before := rows;
      var row, namespace;
      rows, row := FileItems(rows, OperationItems(m));
      if row.Some? {
        var (n, declared) := row.value;
        ExplainOperation(seal, before, modules, m, n, declared);
        return Err(if before[n] != declared then EffectConflict(n, m.id) else DuplicateOperation(n, m.id));
      }
      ghost var owners := namespaces;
      namespaces, namespace := FileItems(namespaces, NamespaceItems(m));
      if namespace.Some? {
        ExplainNamespace(seal, owners, modules, m, namespace.value);
        return Err(DuplicateReceiptNamespace(namespace.value.0, m.id));
      }
      r := Ok(());
    }

    // File its job kinds, subscriptions and event-payload bindings likewise.
    method ClaimExports(m: Module) returns (r: Result<(), MountError>)
      requires Coherent(encode, m) && Owned(jobs, modules, JobItems)
      requires Owned(subscriptionOwners, modules, SubscriptionItems) && Owned(bindings, modules, BindingItems)
      modifies this`jobs, this`subscriptionOwners, this`bindings
      ensures r.Ok? <==> Vacant(old(jobs), JobItems(m)) && Vacant(old(subscriptionOwners), SubscriptionItems(m))
                         && Vacant(old(bindings), BindingItems(m))
      ensures r.Ok? ==> Filled(old(jobs), JobItems(m), jobs) && Filled(old(subscriptionOwners), SubscriptionItems(m), subscriptionOwners)
                        && Filled(old(bindings), BindingItems(m), bindings)
      ensures r.Err? ==> Explains(seal, modules, m, r.error)
    {
      ItemsDistinct(encode, m);
      var job, subscription, binding;
      ghost var owners := jobs;
      jobs, job := FileItems(jobs, JobItems(m));
      if job.Some? {
        ExplainJob(seal, owners, modules, m, job.value);
        return Err(DuplicateJobKind(job.value.0, m.id));
      }
      owners := subscriptionOwners;
      subscriptionOwners, subscription := FileItems(subscriptionOwners, SubscriptionItems(m));
      if subscription.Some? {
        ExplainSubscription(seal, owners, modules, m, subscription.value);
        return Err(DuplicateSubscriptionId(subscription.value.0, m.id));
      }
      var bound := bindings;
      bindings, binding := FileItems(bindings, BindingItems(m));
      if binding.Some? {
        ExplainBinding(seal, bound, modules, m, binding.value);
        return Err(BindingError(m.id, binding.value, bound[binding.value.0]));
      }
      r := Ok(());
    }

    // Everything a module claims.
    method ClaimAll(m: Module) returns (r: Result<(), MountError>)
      requires Coherent(encode, m) && Records(Ownership(), modules)
      modifies this`ids, this`rows, this`namespaces, this`jobs, this`subscriptionOwners, this`bindings
      ensures r.Ok? <==> AllVacant(old(Ownership()), m)
      ensures r.Ok? ==> AllFilled(old(Ownership()), m, Ownership())
      ensures r.Err? ==> Explains(seal, modules, m, r.error)
    {
      r := ClaimOperations(m);
      if r.Ok? { r := ClaimExports(m); }
    }

    // Mounting succeeds iff the module's digest verifies and it is compatible with every
    // module mounted before; a failure names a real clash and consumes the builder.
    method Mount(m: Module) returns (r: Result<(), MountError>)
      requires Valid() && Coherent(encode, m)
      modifies this, schemas
      ensures r.Ok? <==> VerifyHash(seal, m) && forall a :: a in old(modules) ==> Compatible(a, m)
      ensures r.Ok? ==> Valid() && modules == old(modules) + [m]
      ensures r.Err? ==> Explains(seal, old(modules), m, r.error)
      ensures receiptSink == old(receiptSink) && backend == old(backend)
    {
      if !VerifyHash(seal, m) { return Err(ModuleHashMismatch(m.id)); }
      ghost var t, byKey := Ownership(), schemas.byKey;
      MountDecided(seal, encode, modules, t, byKey, m);
      var claimed := ClaimAll(m);
      if claimed.Err? { return claimed; }
      var added := schemas.AddModule(m);
      if added.Err? {
        ExplainSchema(seal, byKey, modules, m, added.error);
        return Err(SchemaCollision(added.error));
      }
      MountKeepsStanding(seal, encode, modules, t, byKey, m, Ownership(), schemas.byKey);
      modules := modules + [m];
      r := Ok(());
    }

    // Building succeeds iff something is mounted and every reference of every module
    // means exactly one declared schema. The errors of lowering never occur.
    method Build() returns (r: Result<Host, BuildError>)
      requires Valid()
      ensures r.Ok? <==> modules != [] && AllDeclared(modules)
      ensures r.Ok? ==> IsHost(Setting(encode, decodes, receiptSink, backend), modules, r.value) && FaceSays(modules, r.value)
      ensures r.Err? ==> (r.error.EmptyHost? <==> modules == []) && Blames(modules, r.error)
    {
      if modules == [] { return Err(EmptyHost); }
      var composition := schemas.Seal(modules);
      r := BuildHost(Setting(encode, decodes, receiptSink, backend), modules, composition);
    }
  }

  /** Mounting a sequence of built modules on an empty host succeeds iff they are pairwise
      compatible; by `MountableForgetsOrder`, success does not depend on the order. */
  method MountAll(seal: Seal, encode: Schema.Encoder, decodes: Bytes -> bool, sink: Option<ReceiptSink>,
                  backend: Option<Backend>, ms: seq<Module>)
    returns (r: Result<HostBuilder, MountError>)
    requires forall m :: m in ms ==> Coherent(encode, m) && VerifyHash(seal, m)
    ensures r.Ok? <==> Mountable(ms)
    ensures r.Ok? ==> fresh(r.value) && fresh(r.value.schemas) && r.value.Valid() && r.value.modules == ms
    ensures r.Ok? ==> r.value.receiptSink == sink && r.value.backend == backend && r.value.encode == encode
  {
    var host := new HostBuilder(seal, encode, decodes, sink, backend);
    for k := 0 to |ms|
      invariant fresh(host) && fresh(host.schemas) && host.seal == seal && host.encode == encode
      invariant host.Valid() && host.modules == ms[..k]
      invariant host.receiptSink == sink && host.backend == backend
    {
      assert ms[..k + 1] == ms[..k] + [ms[k]];
      MountableExtends(ms[..k], ms[k]);
      var mounted := host.Mount(ms[k]);
      if mounted.Err? {
        MountablePrefix(ms, k + 1);
        return Err(mounted.error);
      }
    }
    assert ms[..|ms|] == ms;
    r := Ok(host);
  }

  lemma MountablePrefix(ms: seq<Module>, k: nat)
    requires k <= |ms|
    ensures Mountable(ms) ==> Mountable(ms[..k])
  {
    assert forall i :: 0 <= i < k ==> ms[..k][i] == ms[i];
  }
}
