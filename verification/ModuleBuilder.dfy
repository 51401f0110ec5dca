/**
 The builder of a host module: parts are registered one by one, then validated and
 sealed into canonical order.
 */
module ModuleBuilder {
  import opened Sorting
  import opened Evidence
  import opened EffectRow
  import opened Dispatch
  import opened HostModule
  import opened Dotted
  import Schema

  const MAX_MODULE_ID_BYTES := 128

  datatype ModuleError =
    | InvalidOperation(owner: string, name: string)
    | OperationTwice(owner: string, name: string)
    | GuardTwice(owner: string)
    | NamespaceTwice(owner: string, namespace: string)
    | SchemaTwice(owner: string, key: Key)
    | SubscriptionTwice(owner: string, id: string)
    | EmptyReference(kind: Kind)
    | KindTwice(owner: string, kind: Kind)
    | JobTwice(owner: string, job: string)
    | InvalidId(id: string)
    | NothingDeclared(owner: string)
    | HookOrderCollision(owner: string, phase: Phase, order: nat)

  // What has been registered so far.
  datatype Parts = Parts(
    id: string,
    version: nat,
    operations: map<string, (Descriptor, Handler)>,
    namespaces: seq<string>,
    guard: Option<(string, Guard)>,
    hooks: seq<Hook>,
    jobs: set<string>,
    schemas: map<Key, Schema.Descriptor>,
    subscriptions: map<string, Subscription>,
    bindings: map<Kind, Binding>)

  predicate IsIdChar(c: char) { 'a' <= c <= 'z' || '0' <= c <= '9' || c == '.' || c == '_' || c == '-' }

  predicate ValidModuleId(id: string) {
    && id != "" && |id| <= MAX_MODULE_ID_BYTES
    && id[0] != '.' && id[|id| - 1] != '.'
    && (forall i :: 0 < i < |id| ==> !(id[i - 1] == '.' && id[i] == '.'))
    && (forall i :: 0 <= i < |id| ==> IsIdChar(id[i]))
  }

  predicate IsIdWordChar(c: char) { 'a' <= c <= 'z' || '0' <= c <= '9' || c == '_' || c == '-' }

  /** A module id is at most 128 characters of non-empty lower-case words joined by dots. */
  lemma {:induction false} ModuleIdGrammar(id: string)
    ensures ValidModuleId(id) <==> |id| <= 128 && NoneEmpty(Segments(id)) && PartsOf(IsIdWordChar, Segments(id))
  {
    DotsExact(id);
    SegmentChars(IsIdWordChar, id);
    if ValidModuleId(id) { assert OfChars(IsIdWordChar, id); }
    if OfChars(IsIdWordChar, id) { assert forall i :: 0 <= i < |id| ==> IsIdChar(id[i]); }
  }

  predicate Empty(p: Parts) {
    && p.operations == map[] && p.hooks == [] && p.jobs == {} && p.guard.None?
    && p.schemas == map[] && p.subscriptions == map[] && p.bindings == map[]
  }

  // Every table files its values under their own keys, and what was checked on the way
  // in still holds.
  ghost predicate ValidParts(encode: Schema.Encoder, p: Parts) {
    && (forall n :: n in p.operations ==> p.operations[n].0.name == n && ValidDescriptor(p.operations[n].0))
    && (forall i, j :: 0 <= i < j < |p.namespaces| ==> p.namespaces[i] != p.namespaces[j])
    && (forall k :: k in p.schemas ==> KeyOf(p.schemas[k]) == k && Schema.VerifyEncoding(encode, p.schemas[k]))
    && (forall n :: n in p.subscriptions ==> p.subscriptions[n].id == n)
    && (forall k :: k in p.bindings ==> p.bindings[k].kind == k && p.bindings[k].payloadRef != "")
  }

  // ----- Hook order -----

  predicate PhaseLe(a: Phase, b: Phase) { a == Startup || b == Shutdown }

  // The `(phase, order, name)` order of a module's hooks.
  predicate HookLe(a: Hook, b: Hook) {
    if a.phase != b.phase then PhaseLe(a.phase, b.phase)
    else if a.order != b.order then a.order < b.order
    else StrLe(a.name, b.name)
  }

  lemma HookPreorder()
    ensures TotalPreorder(HookLe)
  {
    StrTotalOrder();
  }

  // Hooks ascend by phase, startup first, then by order, then by name.
  ghost predicate HooksAscend(hooks: seq<Hook>) {
    forall i, j :: 0 <= i < j < |hooks| ==>
      var a, b := hooks[i], hooks[j];
      || (a.phase == Startup && b.phase == Shutdown)
      || (a.phase == b.phase && a.order < b.order)
      || (a.phase == b.phase && a.order == b.order && StrLe(a.name, b.name))
  }

  // The first adjacent pair of hooks in one slot, as the builder looks for it.
  method RejectHookCollisions(hooks: seq<Hook>) returns (clash: Option<Hook>)
    requires Sorted(HookLe, hooks)
    ensures clash.None? <==> HooksDistinct(hooks)
    ensures clash.Some? ==> exists i :: 0 < i < |hooks| && hooks[i - 1] == clash.value && SlotOf(hooks[i]) == SlotOf(clash.value)
  {
    for i := 0 to |hooks|
      invariant forall k :: 0 < k < i ==> SlotOf(hooks[k - 1]) != SlotOf(hooks[k])
    {
      if i > 0 && SlotOf(hooks[i - 1]) == SlotOf(hooks[i]) { return Some(hooks[i - 1]); }
    }
    AdjacentSuffices(hooks);
    clash := None;
  }

  // In sorted hooks, hooks that share a slot have neighbours that do.
  lemma AdjacentSuffices(hooks: seq<Hook>)
    requires Sorted(HookLe, hooks)
    requires forall k :: 0 < k < |hooks| ==> SlotOf(hooks[k - 1]) != SlotOf(hooks[k])
    ensures HooksDistinct(hooks)
  {
    forall i, j | 0 <= i < j < |hooks| ensures SlotOf(hooks[i]) != SlotOf(hooks[j]) {
      assert SlotOf(hooks[j - 1]) != SlotOf(hooks[j]);
      if i < j - 1 {
        assert HookLe(hooks[i], hooks[j - 1]) && HookLe(hooks[j - 1], hooks[j]);
      }
    }
  }

  // ----- Sealing -----

  // `m` is what the parts seal into: each table in canonical order, nothing lost or added.
  ghost predicate Assembles(p: Parts, m: Module) {
    && m.id == p.id && m.version == p.version
    && KeySorted(StrLe, NameOf, m.operations)
    && (forall d :: d in m.operations <==> d.name in p.operations && p.operations[d.name].0 == d)
    && m.handlers == (map n | n in p.operations :: p.operations[n].1)
    && StrictlySorted(StrLe, m.namespaces) && (forall x :: x in m.namespaces <==> x in p.namespaces)
    && m.guardCode == (if p.guard.Some? then Some(p.guard.value.0) else None)
    && m.guard == (if p.guard.Some? then Some(p.guard.value.1) else None)
    && m.hooks == Sort(HookLe, p.hooks)
    && StrictlySorted(StrLe, m.jobs) && (forall x :: x in m.jobs <==> x in p.jobs)
    && KeySorted(KeyLe, KeyOf, m.schemas) && (forall s :: s in m.schemas <==> KeyOf(s) in p.schemas && p.schemas[KeyOf(s)] == s)
    && KeySorted(StrLe, SubscriptionId, m.subscriptions)
    && (forall s :: s in m.subscriptions <==> SubscriptionId(s) in p.subscriptions && p.subscriptions[SubscriptionId(s)] == s)
    && KeySorted(KindLe, KindOf, m.bindings)
    && (forall b :: b in m.bindings <==> KindOf(b) in p.bindings && p.bindings[KindOf(b)] == b)
  }

  // The same registrations, up to the order of namespaces and hooks.
  ghost predicate SameRegistrations(p: Parts, q: Parts) {
    && q == p.(namespaces := q.namespaces, hooks := q.hooks)
    && multiset(p.namespaces) == multiset(q.namespaces) && multiset(p.hooks) == multiset(q.hooks)
  }

  lemma SlotsDistinguish(hooks: seq<Hook>)
    requires HooksDistinct(hooks)
    ensures KeysDistinguish(HookLe, hooks)
  {
    forall x, y | x in hooks && y in hooks && HookLe(x, y) && HookLe(y, x) ensures x == y {
      var i :| 0 <= i < |hooks| && hooks[i] == x;
      var j :| 0 <= j < |hooks| && hooks[j] == y;
      assert SlotOf(hooks[i]) == SlotOf(hooks[j]);
    }
  }

  lemma KindTotalOrder()
    ensures TotalOrder(KindLe)
  {
  }

  /** A module, and with it the module digest, depends on the set of declared parts and
      never on the order they were registered in. */
  lemma AssemblyCanonical(seal: Seal, p: Parts, q: Parts, m: Module, n: Module)
    requires SameRegistrations(p, q) && HooksDistinct(p.hooks)
    requires Assembles(p, m) && Assembles(q, n) && VerifyHash(seal, m) && VerifyHash(seal, n)
    ensures m == n
  {
    StrTotalOrder();
    KeyTotalOrder();
    KindTotalOrder();
    HookPreorder();
    KeySortedUnique(StrLe, NameOf, m.operations, n.operations);
    SameMembers(p.namespaces, q.namespaces);
    StrictlySortedUnique(StrLe, m.namespaces, n.namespaces);
    StrictlySortedUnique(StrLe, m.jobs, n.jobs);
    SlotsDistinguish(p.hooks);
    SortForgetsOrder(HookLe, p.hooks, q.hooks);
    KeySortedUnique(KeyLe, KeyOf, m.schemas, n.schemas);
    KeySortedUnique(StrLe, SubscriptionId, m.subscriptions, n.subscriptions);
    KeySortedUnique(KindLe, KindOf, m.bindings, n.bindings);
    assert m == n.(digest := m.digest);
    assert ManifestOf(m) == ManifestOf(n);
  }

  class HostModuleBuilder {
    const seal: Seal
    const encode: Schema.Encoder
    const id: string
    const version: nat
    var operations: map<string, (Descriptor, Handler)>
    var namespaces: seq<string>
    var guard: Option<(string, Guard)>
    var hooks: seq<Hook>
    var jobs: set<string>
    var schemas: map<Key, Schema.Descriptor>
    var subscriptions: map<string, Subscription>
    var bindings: map<Kind, Binding>

    ghost function Registered(): Parts
      reads this
    {
      Parts(id, version, operations, namespaces, guard, hooks, jobs, schemas, subscriptions, bindings)
    }

    ghost predicate Valid()
      reads this
    {
      ValidParts(encode, Registered())
    }

    constructor (seal: Seal, encode: Schema.Encoder, id: string, version: nat)
      ensures Valid() && this.seal == seal && this.encode == encode
      ensures Registered() == Parts(id, version, map[], [], None, [], {}, map[], map[], map[])
    {
      this.seal, this.encode, this.id, this.version := seal, encode, id, version;
      operations, namespaces, guard, hooks, jobs := map[], [], None, [], {};
      schemas, subscriptions, bindings := map[], map[], map[];
    }

    method Operation(d: Descriptor, handler: Handler) returns (r: Result<(), ModuleError>)
      requires Valid()
      modifies this`operations
      ensures Valid()
      ensures r.Ok? <==> ValidDescriptor(d) && d.name !in old(operations)
      ensures operations == if r.Ok? then old(operations)[d.name := (d, handler)] else old(operations)
    {
      if !ValidDescriptor(d) { return Err(InvalidOperation(id, d.name)); }
      if d.name in operations { return Err(OperationTwice(id, d.name)); }
      operations := operations[d.name := (d, handler)];
      r := Ok(());
    }

    method MountGuard(code: string, g: Guard) returns (r: Result<(), ModuleError>)
      requires Valid()
      modifies this`guard
      ensures Valid()
      ensures r.Ok? <==> old(guard).None?
      ensures guard == if r.Ok? then Some((code, g)) else old(guard)
    {
      if guard.Some? { return Err(GuardTwice(id)); }
      guard := Some((code, g));
      r := Ok(());
    }

    method ReceiptNamespace(namespace: string) returns (r: Result<(), ModuleError>)
      requires Valid()
      modifies this`namespaces
      ensures Valid()
      ensures r.Ok? <==> namespace !in old(namespaces)
      ensures namespaces == if r.Ok? then old(namespaces) + [namespace] else old(namespaces)
    {
      if namespace in namespaces { return Err(NamespaceTwice(id, namespace)); }
      namespaces := namespaces + [namespace];
      r := Ok(());
    }

    // A descriptor can only have come from `SchemaDescriptor::new`, so its encoding verifies.
    method DeclareSchema(s: Schema.Descriptor) returns (r: Result<(), ModuleError>)
      requires Valid() && Schema.VerifyEncoding(encode, s)
      modifies this`schemas
      ensures Valid()
      ensures r.Ok? <==> KeyOf(s) !in old(schemas)
      ensures schemas == if r.Ok? then old(schemas)[KeyOf(s) := s] else old(schemas)
    {
      if KeyOf(s) in schemas { return Err(SchemaTwice(id, KeyOf(s))); }
      schemas := schemas[KeyOf(s) := s];
      r := Ok(());
    }

    method Subscribe(s: Subscription) returns (r: Result<(), ModuleError>)
      requires Valid()
      modifies this`subscriptions
      ensures Valid()
      ensures r.Ok? <==> s.id !in old(subscriptions)
      ensures subscriptions == if r.Ok? then old(subscriptions)[s.id := s] else old(subscriptions)
    {
      if s.id in subscriptions { return Err(SubscriptionTwice(id, s.id)); }
      subscriptions := subscriptions[s.id := s];
      r := Ok(());
    }

    method BindEventPayload(kind: Kind, payloadRef: string) returns (r: Result<(), ModuleError>)
      requires Valid()
      modifies this`bindings
      ensures Valid()
      ensures r.Ok? <==> payloadRef != "" && kind !in old(bindings)
      ensures bindings == if r.Ok? then old(bindings)[kind := Binding(kind, payloadRef)] else old(bindings)
    {
      if payloadRef == "" { return Err(EmptyReference(kind)); }
      if kind in bindings { return Err(KindTwice(id, kind)); }
      bindings := bindings[kind := Binding(kind, payloadRef)];
      r := Ok(());
    }

    method AddHook(phase: Phase, name: string, order: nat, body: nat)
      requires Valid()
      modifies this`hooks
      ensures Valid()
      ensures hooks == old(hooks) + [Hook(phase, name, order, body)]
    {
      hooks := hooks + [Hook(phase, name, order, body)];
    }

    method AddJob(kind: string) returns (r: Result<(), ModuleError>)
      requires Valid()
      modifies this`jobs
      ensures Valid()
      ensures r.Ok? <==> kind !in old(jobs)
      ensures jobs == old(jobs) + {kind}
    {
      if kind in jobs { return Err(JobTwice(id, kind)); }
      jobs := jobs + {kind};
      r := Ok(());
    }

    // The operation descriptors in name order.
    method ListOperations() returns (ds: seq<Descriptor>)
      requires Valid()
      ensures KeySorted(StrLe, NameOf, ds)
      ensures forall d :: d in ds <==> d.name in operations && operations[d.name].0 == d
    {
      StrTotalOrder();
      var byName := map n | n in operations :: operations[n].0;
      ds := InKeyOrder(StrLe, NameOf, byName);
      forall d ensures d in ds <==> d.name in operations && operations[d.name].0 == d {
        assert d in ds <==> NameOf(d) in byName && byName[NameOf(d)] == d;
      }
    }

    // The schemas in `(id, version, role)` order.
    method ListSchemas() returns (ss: seq<Schema.Descriptor>)
      requires Valid()
      ensures KeySorted(KeyLe, KeyOf, ss) && forall s :: s in ss <==> KeyOf(s) in schemas && schemas[KeyOf(s)] == s
    {
      KeyTotalOrder();
      ss := InKeyOrder(KeyLe, KeyOf, schemas);
    }

    // The subscriptions in id order and the bindings in kind order.
    method ListExports() returns (ss: seq<Subscription>, bs: seq<Binding>)
      requires Valid()
      ensures KeySorted(StrLe, SubscriptionId, ss)
      ensures forall s :: s in ss <==> SubscriptionId(s) in subscriptions && subscriptions[SubscriptionId(s)] == s
      ensures KeySorted(KindLe, KindOf, bs)
      ensures forall b :: b in bs <==> KindOf(b) in bindings && bindings[KindOf(b)] == b
    {
      StrTotalOrder();
      KindTotalOrder();
      ss := InKeyOrder(StrLe, SubscriptionId, subscriptions);
      bs := InKeyOrder(KindLe, KindOf, bindings);
    }

    // The receipt namespaces and job kinds in order.
    method ListNames() returns (ns: seq<string>, js: seq<string>)
      requires Valid()
      ensures StrictlySorted(StrLe, ns) && forall x :: x in ns <==> x in namespaces
      ensures StrictlySorted(StrLe, js) && forall x :: x in js <==> x in jobs
    {
      StrTotalOrder();
      SortDistinct(StrLe, namespaces);
      ns := Sort(StrLe, namespaces);
      js := SortedElements(StrLe, jobs);
      AscendingElements(StrLe, jobs);
    }

    // List every table in canonical order and seal the result.
    method Assemble() returns (m: Module)
      requires Valid()
      ensures Assembles(Registered(), m) && VerifyHash(seal, m)
    {
      var ds := ListOperations();
      var ns, js := ListNames();
      var ss := ListSchemas();
      var subs, bs := ListExports();
      m := Module(
        id, version, ds, ns, if guard.Some? then Some(guard.value.0) else None,
        Sort(HookLe, hooks), js, ss, subs, bs, 0,
        map n | n in operations :: operations[n].1, if guard.Some? then Some(guard.value.1) else None);
      m := Resealed(seal, m);
    }

    // Build succeeds iff the id is well formed, something is declared and no two hooks
    // contend; the module then holds exactly the registered parts, coherent and sealed.
    method Build() returns (r: Result<Module, ModuleError>)
      requires Valid()
      ensures r.Ok? <==> ValidModuleId(id) && !Empty(Registered()) && HooksDistinct(hooks)
      ensures r.Ok? ==> Assembles(Registered(), r.value) && Coherent(encode, r.value) && VerifyHash(seal, r.value)
      ensures r.Ok? ==> HooksAscend(r.value.hooks) && multiset(r.value.hooks) == multiset(hooks) && DeclaresSomething(r.value)
      ensures r.Err? ==> Blames(Registered(), r.error)
    {
      if !ValidModuleId(id) { return Err(InvalidId(id)); }
      if operations == map[] && hooks == [] && jobs == {} && guard.None?
         && schemas == map[] && subscriptions == map[] && bindings == map[] {
        return Err(NothingDeclared(id));
      }
      HookPreorder();
      SortSorts(HookLe, hooks);
      SlotsPermute(hooks, Sort(HookLe, hooks));
      var clash := RejectHookCollisions(Sort(HookLe, hooks));
      if clash.Some? {
        ghost var i :| 0 < i < |hooks| && Sort(HookLe, hooks)[i - 1] == clash.value && SlotOf(Sort(HookLe, hooks)[i]) == SlotOf(clash.value);
        NeighboursContend(hooks, i);
        return Err(HookOrderCollision(id, clash.value.phase, clash.value.order));
      }
      var m := Assemble();
      AssemblyCoherent(encode, Registered(), m);
      AssemblyDeclares(Registered(), m);
      SortedHooksAscend(hooks);
      r := Ok(m);
    }
  }

  // The error names the first thing wrong with what was registered.
  ghost predicate Blames(p: Parts, e: ModuleError) {
    if !ValidModuleId(p.id) then e == InvalidId(p.id)
    else if Empty(p) then e == NothingDeclared(p.id)
    else
      && e.HookOrderCollision? && e.owner == p.id
      && Contended(p.hooks, (e.phase, e.order))
  }

  // Two hooks of the list claim the slot.
  ghost predicate Contended(hooks: seq<Hook>, slot: (Phase, nat)) {
    exists a, b :: multiset{a, b} <= multiset(hooks) && SlotOf(a) == slot && SlotOf(b) == slot
  }

  lemma {:induction false} NeighboursContend(hooks: seq<Hook>, i: nat)
    requires 0 < i < |Sort(HookLe, hooks)| && SlotOf(Sort(HookLe, hooks)[i - 1]) == SlotOf(Sort(HookLe, hooks)[i])
    ensures Contended(hooks, SlotOf(Sort(HookLe, hooks)[i]))
  {
    HookPreorder();
    SortSorts(HookLe, hooks);
    var sorted := Sort(HookLe, hooks);
    assert sorted == sorted[..i - 1] + [sorted[i - 1], sorted[i]] + sorted[i + 1..];
    assert multiset{sorted[i - 1], sorted[i]} <= multiset(sorted);
  }

  // Some part other than the receipt namespaces is there.
  ghost predicate DeclaresSomething(m: Module) {
    || m.operations != [] || m.hooks != [] || m.jobs != [] || m.guard.Some? || m.schemas != []
    || m.subscriptions != [] || m.bindings != []
  }

  lemma AssemblyDeclares(p: Parts, m: Module)
    requires Assembles(p, m)
    requires (forall n :: n in p.operations ==> p.operations[n].0.name == n) && (forall k :: k in p.schemas ==> KeyOf(p.schemas[k]) == k)
    requires (forall n :: n in p.subscriptions ==> p.subscriptions[n].id == n) && (forall k :: k in p.bindings ==> p.bindings[k].kind == k)
    ensures !Empty(p) <==> DeclaresSomething(m)
  {
    if n :| n in p.operations { assert p.operations[n].0 in m.operations; }
    if x :| x in p.jobs { assert x in m.jobs; }
    if k :| k in p.schemas { assert p.schemas[k] in m.schemas; }
    if n :| n in p.subscriptions { assert p.subscriptions[n] in m.subscriptions; }
    if k :| k in p.bindings { assert p.bindings[k] in m.bindings; }
    if m.operations != [] { assert m.operations[0] in m.operations; }
    if m.jobs != [] { assert m.jobs[0] in m.jobs; }
    if m.schemas != [] { assert m.schemas[0] in m.schemas; }
    if m.subscriptions != [] { assert m.subscriptions[0] in m.subscriptions; }
    if m.bindings != [] { assert m.bindings[0] in m.bindings; }
  }

  lemma {:induction false} SortedHooksAscend(hooks: seq<Hook>)
    ensures HooksAscend(Sort(HookLe, hooks))
  {
    HookPreorder();
    SortSorts(HookLe, hooks);
  }

  // Sealing stores the digest of the declared parts, which do not include the digest.
  function Resealed(seal: Seal, m: Module): (r: Module)
    ensures VerifyHash(seal, r) && r == m.(digest := r.digest)
  {
    var r := m.(digest := seal(ManifestOf(m)));
    assert ManifestOf(r) == ManifestOf(m);
    r
  }

  lemma AssemblyCoherent(encode: Schema.Encoder, p: Parts, m: Module)
    requires ValidParts(encode, p) && Assembles(p, m) && HooksDistinct(p.hooks)
    ensures Coherent(encode, m)
  {
    SlotsPermute(p.hooks, m.hooks);
    forall d | d in m.operations ensures ValidDescriptor(d) && d.name in m.handlers {
      assert d.name in p.operations;
    }
    forall s | s in m.schemas ensures Schema.VerifyEncoding(encode, s) {
      assert KeyOf(s) in p.schemas;
    }
  }

  lemma SlotsPermute(a: seq<Hook>, b: seq<Hook>)
    requires multiset(a) == multiset(b)
    ensures HooksDistinct(a) <==> HooksDistinct(b)
  {
    if HooksDistinct(a) { KeysDistinctPermute(SlotOf, a, b); }
    if HooksDistinct(b) { KeysDistinctPermute(SlotOf, b, a); }
  }
}
