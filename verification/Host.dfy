/**
 A built host: what it holds, that it resolves at run time exactly what it resolved when
 it was built, and that none of what it shows depends on the mount order.
 */
module Host {
  import opened Sorting
  import opened Evidence
  import opened EffectRow
  import opened Dispatch
  import opened DispatchSafety
  import opened HostModule
  import opened Composition
  import opened Mounting
  import opened Interface
  import opened Lowering
  import Schema
  import SyncCore

  datatype Host = Host(
    core: Core,
    fingerprint: seq<(string, Hash)>,
    clientInterface: InterfaceView,
    operations: seq<Descriptor>,
    subscriptions: seq<(string, Subscription)>,
    bindings: seq<(string, Binding)>,
    composition: seq<Entry>,
    registry: Schema.Registry,
    startup: seq<(string, Hook)>,
    shutdown: seq<(string, Hook)>)

  // What a host is built with beside its modules.
  datatype Setting = Setting(
    encode: Schema.Encoder, decodes: Bytes -> bool, receiptSink: Option<ReceiptSink>, backend: Option<Backend>)

  function DescriptorOf(e: Entry): Schema.Descriptor { e.descriptor }

  function ContractOf(env: Setting, h: Host): Contract { Contract(h.registry, env.encode, env.decodes) }

  // ----- What a built host is -----

  // Every operation is judged by the guard of its own module and no other.
  ghost predicate JudgedByOwn(ms: seq<Module>, guard: Option<Guard>) {
    forall m, d, turn, input :: m in ms && d in m.operations ==>
      Judgement(guard, turn, d, input) == Judgement(m.guard, turn, d, input)
  }

  ghost predicate Binds(ms: seq<Module>, kind: Kind, reference: string) {
    exists m :: m in ms && Binding(kind, reference) in m.bindings
  }

  ghost predicate IsBound(ms: seq<Module>, bound: map<Kind, string>) {
    forall k, reference :: Holds(bound, k, reference) <==> Binds(ms, k, reference)
  }

  ghost predicate IsCore(env: Setting, ms: seq<Module>, c: Contract, core: Core) {
    && Wired(core) && Registers(c, ms, core.descriptors, core.handlers)
    && JudgedByOwn(ms, core.guard)
    && core.receiptSink == env.receiptSink && core.statusSink.None? && core.hash == SyncCore.NoHash
    && IsBackend(env, ms, c, core.backend)
  }

  // The inner backend is reached only through payload validation.
  ghost predicate IsBackend(env: Setting, ms: seq<Module>, c: Contract, backend: Option<Backend>) {
    if env.backend.None? then backend.None?
    else exists bound :: IsBound(ms, bound) && backend == Some(ValidatingBackend(c, bound, env.backend.value))
  }

  ghost predicate ListsOperations(ms: seq<Module>, ds: seq<Descriptor>) {
    && KeySorted(StrLe, NameOf, ds)
    && forall d :: d in ds <==> exists m :: m in ms && d in m.operations
  }

  // The part of a host that serves calls.
  ghost predicate IsRuntime(env: Setting, ms: seq<Module>, h: Host) {
    && IsComposition(ms, h.composition)
    && Schema.IsRegistry(Map(DescriptorOf, h.composition), h.registry)
    && IsCore(env, ms, ContractOf(env, h), h.core)
  }

  // The part of a host that is shown.
  ghost predicate IsFace(ms: seq<Module>, h: Host) {
    && h.fingerprint == Fingerprint(ms)
    && IsInterface(ms, Map(IdentityOf, h.composition), h.clientInterface)
    && ListsOperations(ms, h.operations)
    && h.subscriptions == Canonical(StrLe, SubscriptionId, ms, SubscriptionsOf)
    && h.bindings == Canonical(KindLe, KindOf, ms, BindingsOf)
    && h.startup == Schedule(ms, StartupHooks) && h.shutdown == Schedule(ms, ShutdownHooks)
  }

  predicate KindBefore(a: Kind, b: Kind) { a < b }

  // What is shown, spelt out: contents and order of every list.
  ghost predicate FaceSays(ms: seq<Module>, h: Host) {
    && IsFingerprint(ms, h.fingerprint)
    && InterfaceSays(ms, Map(IdentityOf, h.composition), h.clientInterface)
    && (forall i, j :: 0 <= i < j < |h.operations| ==> StrBefore(h.operations[i].name, h.operations[j].name))
    && IsCanonical(StrBefore, SubscriptionId, ms, SubscriptionsOf, h.subscriptions)
    && IsCanonical(KindBefore, KindOf, ms, BindingsOf, h.bindings)
    && IsSchedule(ms, Startup, h.startup) && IsSchedule(ms, Shutdown, h.shutdown)
  }

  /** A host shows every module's id and digest, what every reference of its interface
      means, and each of its lists and schedules in full and in order. */
  lemma FaceExact(env: Setting, ms: seq<Module>, h: Host)
    requires Mounted(env.encode, ms) && IsFace(ms, h)
    ensures FaceSays(ms, h)
  {
    MountableIds(ms);
    FingerprintExact(ms);
    InterfaceExact(ms, Map(IdentityOf, h.composition), h.clientInterface);
    forall i, j | 0 <= i < j < |h.operations| ensures StrBefore(h.operations[i].name, h.operations[j].name) {
      assert NameOf(h.operations[i]) != NameOf(h.operations[j]);
    }
    FaceLists(env.encode, ms);
  }

  lemma FaceLists(encode: Schema.Encoder, ms: seq<Module>)
    requires Mounted(encode, ms)
    ensures IsCanonical(StrBefore, SubscriptionId, ms, SubscriptionsOf, Canonical(StrLe, SubscriptionId, ms, SubscriptionsOf))
    ensures IsCanonical(KindBefore, KindOf, ms, BindingsOf, Canonical(KindLe, KindOf, ms, BindingsOf))
    ensures IsSchedule(ms, Startup, Schedule(ms, StartupHooks)) && IsSchedule(ms, Shutdown, Schedule(ms, ShutdownHooks))
  {
    MountableIds(ms);
    StrTotalOrder();
    assert TotalOrder(KindLe);
    forall m | m in ms ensures
      && KeysDistinct(SubscriptionId, SubscriptionsOf(m)) && KeysDistinct(KindOf, BindingsOf(m))
      && KeysDistinct(OrderOf, StartupHooks(m)) && KeysDistinct(OrderOf, ShutdownHooks(m))
    {
      PiecesDistinct(encode, m);
    }
    CanonicalExact(StrLe, StrBefore, SubscriptionId, ms, SubscriptionsOf);
    CanonicalExact(KindLe, KindBefore, KindOf, ms, BindingsOf);
    ScheduleExact(ms, Startup);
    ScheduleExact(ms, Shutdown);
  }

  ghost predicate IsHost(env: Setting, ms: seq<Module>, h: Host) { IsRuntime(env, ms, h) && IsFace(ms, h) }

  // What mounting leaves: coherent modules that fit together.
  ghost predicate Mounted(encode: Schema.Encoder, ms: seq<Module>) {
    Mountable(ms) && forall m :: m in ms ==> Coherent(encode, m)
  }

  // ----- Mount order -----

  /** Every mount order of the same modules gives the same fingerprint and interface
      pre-images, the same lists and the same hook schedules. */
  lemma MountOrderIrrelevant(env: Setting, ms: seq<Module>, ns: seq<Module>, g: Host, h: Host)
    requires multiset(ms) == multiset(ns) && Mounted(env.encode, ms) && IsHost(env, ms, g) && IsHost(env, ns, h)
    ensures g.fingerprint == h.fingerprint
    ensures g.clientInterface == h.clientInterface
    ensures g.startup == h.startup && g.shutdown == h.shutdown
    ensures g.operations == h.operations && g.subscriptions == h.subscriptions && g.bindings == h.bindings
    ensures Map(IdentityOf, g.composition) == Map(IdentityOf, h.composition)
  {
    MountableIds(ms);
    MountableAgree(env.encode, ms);
    FingerprintForgetsOrder(ms, ns);
    IdentityForgetsOrder(ms, ns, g.composition, h.composition);
    InterfaceForgetsOrder(ms, ns, Map(IdentityOf, g.composition), g.clientInterface, h.clientInterface);
    ListsForgetMountOrder(env.encode, ms, ns);
    OperationsForgetOrder(ms, ns, g.operations, h.operations);
  }

  lemma ListsForgetMountOrder(encode: Schema.Encoder, ms: seq<Module>, ns: seq<Module>)
    requires multiset(ms) == multiset(ns) && Mounted(encode, ms)
    ensures Schedule(ms, StartupHooks) == Schedule(ns, StartupHooks)
    ensures Schedule(ms, ShutdownHooks) == Schedule(ns, ShutdownHooks)
    ensures Canonical(StrLe, SubscriptionId, ms, SubscriptionsOf) == Canonical(StrLe, SubscriptionId, ns, SubscriptionsOf)
    ensures Canonical(KindLe, KindOf, ms, BindingsOf) == Canonical(KindLe, KindOf, ns, BindingsOf)
  {
    MountableIds(ms);
    StrTotalOrder();
    assert TotalOrder(KindLe);
    forall m | m in ms ensures
      && KeysDistinct(SubscriptionId, SubscriptionsOf(m)) && KeysDistinct(KindOf, BindingsOf(m))
      && KeysDistinct(OrderOf, StartupHooks(m)) && KeysDistinct(OrderOf, ShutdownHooks(m))
    {
      PiecesDistinct(encode, m);
    }
    ScheduleForgetsOrder(ms, ns, StartupHooks);
    ScheduleForgetsOrder(ms, ns, ShutdownHooks);
    CanonicalForgetsOrder(StrLe, SubscriptionId, ms, ns, SubscriptionsOf);
    CanonicalForgetsOrder(KindLe, KindOf, ms, ns, BindingsOf);
  }

  lemma OperationsForgetOrder(ms: seq<Module>, ns: seq<Module>, ds: seq<Descriptor>, es: seq<Descriptor>)
    requires multiset(ms) == multiset(ns) && ListsOperations(ms, ds) && ListsOperations(ns, es)
    ensures ds == es
  {
    SameMembers(ms, ns);
    StrTotalOrder();
    KeySortedUnique(StrLe, NameOf, ds, es);
  }

  /** The schema composition, owners and all, is the same for every mount order when no
      schema is shared; `Composition.OwnershipOrder` shows this is exact. */
  lemma UnsharedCompositionFixed(env: Setting, ms: seq<Module>, ns: seq<Module>, g: Host, h: Host)
    requires multiset(ms) == multiset(ns) && Mounted(env.encode, ms) && IsHost(env, ms, g) && IsHost(env, ns, h)
    requires Unshared(ms)
    ensures Map(HashedView, g.composition) == Map(HashedView, h.composition)
  {
    MountableIds(ms);
    OwnershipOrder(ms);
  }

  // ----- Resolution -----

  // A schema identity the reference could mean is declared by some module.
  ghost predicate MeantBy(ms: seq<Module>, reference: string, role: Schema.Role, v: SchemaView) {
    DeclaredView(ms, v) && v.id == reference && v.role == role
  }

  // The modules declare exactly one schema identity the reference could mean.
  ghost predicate OneDeclared(ms: seq<Module>, reference: string, role: Schema.Role) {
    exists v :: MeantBy(ms, reference, role, v) && forall u :: MeantBy(ms, reference, role, u) ==> u == v
  }

  // The views list exactly the declared schema identities, in key order.
  ghost predicate ListsViews(ms: seq<Module>, vs: seq<SchemaView>) {
    KeySorted(KeyLe, ViewKey, vs) && forall v :: v in vs <==> DeclaredView(ms, v)
  }

  lemma OneMember(found: seq<SchemaView>)
    requires KeysDistinct(ViewKey, found)
    ensures |found| == 1 <==> exists v :: v in found && forall u :: u in found ==> u == v
  {
    if |found| == 1 {
      assert found[0] in found && forall u :: u in found ==> u == found[0];
    } else {
      assert |found| > 1 ==> found[0] in found && found[1] in found && ViewKey(found[0]) != ViewKey(found[1]);
    }
  }

  lemma OneMeaning(ms: seq<Module>, reference: string, role: Schema.Role, found: seq<SchemaView>)
    requires KeysDistinct(ViewKey, found)
    requires forall v :: v in found <==> MeantBy(ms, reference, role, v)
    ensures |found| == 1 <==> OneDeclared(ms, reference, role)
  {
    OneMember(found);
    if |found| == 1 {
      var v :| v in found && forall u :: u in found ==> u == v;
      assert MeantBy(ms, reference, role, v);
    }
  }

  lemma UniqueExact(ms: seq<Module>, vs: seq<SchemaView>, reference: string, role: Schema.Role)
    requires ListsViews(ms, vs)
    ensures Unique(vs, reference, role) <==> OneDeclared(ms, reference, role)
  {
    var p := (v: SchemaView) => v.id == reference && v.role == role;
    var found := Meanings(vs, reference, role);
    FilterMembers(p, vs);
    FilterDistinct(p, ViewKey, vs);
    forall v ensures v in found <==> MeantBy(ms, reference, role, v) {
      assert v in vs <==> DeclaredView(ms, v);
    }
    OneMeaning(ms, reference, role, found);
  }

  ghost predicate OperationsDeclared(ms: seq<Module>) {
    forall m, d :: m in ms && d in OperationsOf(m) ==> OperationDeclared(ms, d)
  }

  ghost predicate SubscriptionsDeclared(ms: seq<Module>) {
    forall m, s :: m in ms && s in SubscriptionsOf(m) ==> OneDeclared(ms, s.payloadRef, RequiredRole(s.source))
  }

  ghost predicate BindingsDeclared(ms: seq<Module>) {
    forall m, b :: m in ms && b in BindingsOf(m) ==> OneDeclared(ms, b.payloadRef, Schema.EventPayload)
  }

  // Every reference of every module means exactly one declared schema.
  ghost predicate AllDeclared(ms: seq<Module>) { OperationsDeclared(ms) && SubscriptionsDeclared(ms) && BindingsDeclared(ms) }

  ghost predicate OperationDeclared(ms: seq<Module>, d: Descriptor) {
    && OneDeclared(ms, d.inputRef, Schema.OperationInput)
    && OneDeclared(ms, d.outputRef, Schema.OperationOutput)
    && OneDeclared(ms, d.receiptKind, Schema.ReceiptPayload)
  }

  /** Whether a build succeeds does not depend on the mount order either. */
  lemma {:induction false} DeclaredForgetsOrder(ms: seq<Module>, ns: seq<Module>)
    requires multiset(ms) == multiset(ns) && AllDeclared(ms)
    ensures AllDeclared(ns)
  {
    SameMembers(ms, ns);
    forall reference, role | OneDeclared(ms, reference, role) ensures OneDeclared(ns, reference, role) {
      assert forall v :: DeclaredView(ms, v) <==> DeclaredView(ns, v);
      var v :| MeantBy(ms, reference, role, v) && forall u :: MeantBy(ms, reference, role, u) ==> u == v;
      assert MeantBy(ns, reference, role, v);
      assert forall u :: MeantBy(ns, reference, role, u) ==> MeantBy(ms, reference, role, u);
    }
    assert forall d :: OperationDeclared(ms, d) ==> OperationDeclared(ns, d);
  }

  // Every item of every module has a view iff each has one of its own accord.
  lemma {:induction false} ShownByMember<T(!new), V(!new)>(ms: seq<Module>, vs: seq<SchemaView>, items: Module -> seq<T>,
                                        view: (seq<SchemaView>, string, T) -> Result<V, RefError>)
    ensures AllShown(vs, view, Tagged(ms, items)) <==> forall m, x :: m in ms && x in items(m) ==> view(vs, m.id, x).Ok?
  {
    TaggedMembers(ms, items);
    if AllShown(vs, view, Tagged(ms, items)) {
      forall m, x | m in ms && x in items(m) ensures view(vs, m.id, x).Ok? {
        assert FromModule(ms, items, (m.id, x));
        assert (m.id, x) in Tagged(ms, items);
      }
    }
    if forall m, x :: m in ms && x in items(m) ==> view(vs, m.id, x).Ok? {
      forall p | p in Tagged(ms, items) ensures view(vs, p.0, p.1).Ok? {
        assert FromModule(ms, items, p);
      }
    }
  }

  lemma OperationExact(ms: seq<Module>, vs: seq<SchemaView>, id: string, d: Descriptor)
    requires ListsViews(ms, vs)
    ensures OperationView(vs, id, d).Ok? <==> OperationDeclared(ms, d)
  {
    UniqueExact(ms, vs, d.inputRef, Schema.OperationInput);
    UniqueExact(ms, vs, d.outputRef, Schema.OperationOutput);
    UniqueExact(ms, vs, d.receiptKind, Schema.ReceiptPayload);
  }

  lemma {:induction false} OperationsExact(ms: seq<Module>, vs: seq<SchemaView>)
    requires ListsViews(ms, vs)
    ensures AllShown(vs, OperationView, Tagged(ms, OperationsOf)) <==> OperationsDeclared(ms)
  {
    ShownByMember(ms, vs, OperationsOf, OperationView);
    if AllShown(vs, OperationView, Tagged(ms, OperationsOf)) {
      forall m, d | m in ms && d in OperationsOf(m) ensures OperationDeclared(ms, d) {
        assert OperationView(vs, m.id, d).Ok?;
        OperationExact(ms, vs, m.id, d);
      }
    }
    if OperationsDeclared(ms) {
      forall m, d | m in ms && d in OperationsOf(m) ensures OperationView(vs, m.id, d).Ok? {
        OperationExact(ms, vs, m.id, d);
      }
    }
  }

  lemma {:induction false} SubscriptionsExact(ms: seq<Module>, vs: seq<SchemaView>)
    requires ListsViews(ms, vs)
    ensures AllShown(vs, SubscriptionView, Tagged(ms, SubscriptionsOf)) <==> SubscriptionsDeclared(ms)
  {
    ShownByMember(ms, vs, SubscriptionsOf, SubscriptionView);
    forall m, s | m in ms && s in SubscriptionsOf(m)
      ensures SubscriptionView(vs, m.id, s).Ok? <==> OneDeclared(ms, s.payloadRef, RequiredRole(s.source))
    {
      UniqueExact(ms, vs, s.payloadRef, RequiredRole(s.source));
    }
  }

  lemma {:induction false} BindingsExact(ms: seq<Module>, vs: seq<SchemaView>)
    requires ListsViews(ms, vs)
    ensures AllShown(vs, BindingView, Tagged(ms, BindingsOf)) <==> BindingsDeclared(ms)
  {
    ShownByMember(ms, vs, BindingsOf, BindingView);
    forall m, b | m in ms && b in BindingsOf(m)
      ensures BindingView(vs, m.id, b).Ok? <==> OneDeclared(ms, b.payloadRef, Schema.EventPayload)
    {
      UniqueExact(ms, vs, b.payloadRef, Schema.EventPayload);
    }
  }

  /** The interface can be computed iff every reference means exactly one declared schema. */
  lemma ResolveExact(ms: seq<Module>, vs: seq<SchemaView>)
    requires ListsViews(ms, vs)
    ensures AllResolve(ms, vs) <==> AllDeclared(ms)
  {
    OperationsExact(ms, vs);
    SubscriptionsExact(ms, vs);
    BindingsExact(ms, vs);
  }

  // At run time the reference resolves, to an intact descriptor some module declares.
  ghost predicate ResolvesTo(c: Contract, ms: seq<Module>, reference: string, role: Schema.Role, s: Schema.Descriptor) {
    && Schema.Resolve(c.registry, reference, role) == Ok(s)
    && Schema.VerifyEncoding(c.encode, s)
    && s.id == reference && s.role == role && exists m :: m in ms && s in m.schemas
  }

  // A payload is accepted iff it and the schema's own golden vectors decode.
  ghost predicate AcceptsExactly(c: Contract, reference: string, role: Schema.Role, s: Schema.Descriptor) {
    forall bytes :: Accepts(c, reference, role, bytes) <==> c.decodes(bytes) && forall g :: g in s.golden ==> c.decodes(g.bytes)
  }

  lemma IdentityIsView(es: seq<Entry>)
    ensures Map(IdentityOf, es) == Map(ViewSchema, Map(DescriptorOf, es))
  {
  }

  // Descriptors of the composition were declared, so they verify.
  lemma CompositionDeclared(encode: Schema.Encoder, ms: seq<Module>, es: seq<Entry>, s: Schema.Descriptor)
    requires Mounted(encode, ms) && IsComposition(ms, es) && s in Map(DescriptorOf, es)
    ensures Schema.VerifyEncoding(encode, s) && exists m :: m in ms && s in m.schemas
  {
    MapMembers(DescriptorOf, es);
    var e :| e in es && DescriptorOf(e) == s;
    var i := EntryIsFirst(ms, EntryKey(e));
    assert ms[i] in ms && s in ms[i].schemas;
  }

  // The registry has one candidate for a reference iff the modules declare one.
  lemma CandidatesExact(encode: Schema.Encoder, ms: seq<Module>, es: seq<Entry>, reference: string, role: Schema.Role)
    requires Mounted(encode, ms) && IsComposition(ms, es)
    ensures OneDeclared(ms, reference, role) <==> |Schema.Candidates(Map(DescriptorOf, es), reference, role)| == 1
  {
    MountableAgree(encode, ms);
    IdentityViews(ms, es);
    UniqueExact(ms, Map(IdentityOf, es), reference, role);
    IdentityIsView(es);
    MeaningsAreCandidates(Map(DescriptorOf, es), reference, role);
  }

  lemma OneCandidateResolves(c: Contract, ds: seq<Schema.Descriptor>, reference: string, role: Schema.Role, s: Schema.Descriptor)
    requires Schema.IsRegistry(ds, c.registry) && Schema.Candidates(ds, reference, role) == [s] && Schema.VerifyEncoding(c.encode, s)
    ensures Schema.Resolve(c.registry, reference, role) == Ok(s) && AcceptsExactly(c, reference, role, s)
  {
    Schema.UniqueResolves(ds, c.registry, c.encode, c.decodes, reference, role, s, []);
    forall bytes ensures Accepts(c, reference, role, bytes) <==> c.decodes(bytes) && forall g :: g in s.golden ==> c.decodes(g.bytes) {
      Schema.UniqueResolves(ds, c.registry, c.encode, c.decodes, reference, role, s, bytes);
    }
  }

  lemma ResolutionExact(c: Contract, ms: seq<Module>, es: seq<Entry>, reference: string, role: Schema.Role)
    requires Mounted(c.encode, ms) && IsComposition(ms, es) && Schema.IsRegistry(Map(DescriptorOf, es), c.registry)
    ensures OneDeclared(ms, reference, role) <==> Schema.Resolve(c.registry, reference, role).Ok?
    ensures OneDeclared(ms, reference, role) ==>
            exists s :: ResolvesTo(c, ms, reference, role, s) && AcceptsExactly(c, reference, role, s)
  {
    var ds := Map(DescriptorOf, es);
    var found := Schema.Candidates(ds, reference, role);
    CandidatesExact(c.encode, ms, es, reference, role);
    if |found| == 1 {
      var s := found[0];
      FilterMembers((x: Schema.Descriptor) => Schema.IsFor(x, reference, role), ds);
      assert s in found && s in ds;
      CompositionDeclared(c.encode, ms, es, s);
      OneCandidateResolves(c, ds, reference, role, s);
      assert ResolvesTo(c, ms, reference, role, s);
    }
  }

  /** A reference that means exactly one declared schema resolves to it at run time, and
      any other fails to resolve: build-time and run-time resolution agree. */
  lemma StaticIsDynamic(env: Setting, ms: seq<Module>, h: Host, reference: string, role: Schema.Role)
    requires Mounted(env.encode, ms) && IsRuntime(env, ms, h)
    ensures OneDeclared(ms, reference, role) <==> Schema.Resolve(h.registry, reference, role).Ok?
    ensures OneDeclared(ms, reference, role) ==>
            exists s :: ResolvesTo(ContractOf(env, h), ms, reference, role, s)
                        && AcceptsExactly(ContractOf(env, h), reference, role, s)
  {
    ResolutionExact(ContractOf(env, h), ms, h.composition, reference, role);
  }

  // ----- Building -----

  datatype BuildError =
    | EmptyHost
    | SubscriptionSchemaMissing(owner: string, subscription: string, reference: string, role: Schema.Role)
    | BindingSchemaMissing(owner: string, kind: Kind, reference: string)
    | Unresolved(error: RefError)

  // The operation names this schema in this role.
  ghost predicate Refers(d: Descriptor, reference: string, role: Schema.Role) {
    || (role == Schema.OperationInput && reference == d.inputRef)
    || (role == Schema.OperationOutput && reference == d.outputRef)
    || (role == Schema.ReceiptPayload && reference == d.receiptKind)
  }

  // The error names a reference of a module that does not mean exactly one declared
  // schema; an operation's is missing if it means none, and otherwise ambiguous.
  ghost predicate Blames(ms: seq<Module>, e: BuildError) {
    match e
    case EmptyHost => ms == []
    case SubscriptionSchemaMissing(owner, id, reference, role) =>
      && !OneDeclared(ms, reference, role)
      && exists m, s :: m in ms && m.id == owner && s in m.subscriptions && s.id == id
                        && s.payloadRef == reference && RequiredRole(s.source) == role
    case BindingSchemaMissing(owner, kind, reference) =>
      && !OneDeclared(ms, reference, Schema.EventPayload)
      && exists m :: m in ms && m.id == owner && Binding(kind, reference) in m.bindings
    case Unresolved(x) =>
      && Unmeant(ms, x)
      && exists m, d :: m in ms && m.id == x.owner && d in m.operations
                        && x.operation == Some(d.name) && Refers(d, x.reference, x.role)
  }

  // The error is about this one reference, and says whether it means nothing or too much.
  ghost predicate Unmeant(ms: seq<Module>, e: RefError) {
    && !OneDeclared(ms, e.reference, e.role)
    && (e.ReferenceMissing? <==> forall v :: !MeantBy(ms, e.reference, e.role, v))
  }

  lemma UnmeantRef(ms: seq<Module>, vs: seq<SchemaView>, owner: string, operation: Option<string>, reference: string, role: Schema.Role)
    requires ListsViews(ms, vs) && ResolveRef(vs, owner, operation, reference, role).Err?
    ensures var e := ResolveRef(vs, owner, operation, reference, role).error;
            e.owner == owner && e.operation == operation && e.reference == reference && e.role == role && Unmeant(ms, e)
  {
    ResolveRefExact(vs, owner, operation, reference, role);
    UniqueExact(ms, vs, reference, role);
    forall v ensures MeantBy(ms, reference, role, v) <==> v in vs && v.id == reference && v.role == role {
      assert v in vs <==> DeclaredView(ms, v);
    }
  }

  lemma OperationUnmeant(ms: seq<Module>, vs: seq<SchemaView>, owner: string, d: Descriptor)
    requires ListsViews(ms, vs) && OperationView(vs, owner, d).Err?
    ensures var e := OperationView(vs, owner, d).error;
            e.owner == owner && e.operation == Some(d.name) && Refers(d, e.reference, e.role) && Unmeant(ms, e)
  {
    if ResolveRef(vs, owner, Some(d.name), d.inputRef, Schema.OperationInput).Err? {
      UnmeantRef(ms, vs, owner, Some(d.name), d.inputRef, Schema.OperationInput);
    } else if ResolveRef(vs, owner, Some(d.name), d.outputRef, Schema.OperationOutput).Err? {
      UnmeantRef(ms, vs, owner, Some(d.name), d.outputRef, Schema.OperationOutput);
    } else {
      UnmeantRef(ms, vs, owner, Some(d.name), d.receiptKind, Schema.ReceiptPayload);
    }
  }

  lemma UnresolvedBlames(ms: seq<Module>, vs: seq<SchemaView>, e: RefError)
    requires ListsViews(ms, vs) && Failing(ms, vs, OperationsOf, OperationView, e)
    ensures Blames(ms, Unresolved(e))
  {
    var p :| FromModule(ms, OperationsOf, p) && OperationView(vs, p.0, p.1) == Err(e);
    var m :| m in ms && m.id == p.0 && p.1 in OperationsOf(m);
    OperationUnmeant(ms, vs, p.0, p.1);
    assert p.1 in m.operations;
  }

  method ValidateSubscriptions(ms: seq<Module>, vs: seq<SchemaView>) returns (r: Result<(), BuildError>)
    ensures r.Ok? <==> AllShown(vs, SubscriptionView, Tagged(ms, SubscriptionsOf))
    ensures r.Err? ==> r.error.SubscriptionSchemaMissing? && (ListsViews(ms, vs) ==> Blames(ms, r.error))
  {
    ShownByMember(ms, vs, SubscriptionsOf, SubscriptionView);
    for k := 0 to |ms|
      invariant forall i, s :: 0 <= i < k && s in SubscriptionsOf(ms[i]) ==> SubscriptionView(vs, ms[i].id, s).Ok?
    {
      var m := ms[k];
      for j := 0 to |m.subscriptions|
        invariant forall i :: 0 <= i < j ==> SubscriptionView(vs, m.id, m.subscriptions[i]).Ok?
      {
        var s := m.subscriptions[j];
        if !Unique(vs, s.payloadRef, RequiredRole(s.source)) {
          assert s in SubscriptionsOf(m) && SubscriptionView(vs, m.id, s).Err?;
          if ListsViews(ms, vs) { UniqueExact(ms, vs, s.payloadRef, RequiredRole(s.source)); }
          return Err(SubscriptionSchemaMissing(m.id, s.id, s.payloadRef, RequiredRole(s.source)));
        }
      }
    }
    r := Ok(());
  }

  method ValidateBindings(ms: seq<Module>, vs: seq<SchemaView>) returns (r: Result<(), BuildError>)
    ensures r.Ok? <==> AllShown(vs, BindingView, Tagged(ms, BindingsOf))
    ensures r.Err? ==> r.error.BindingSchemaMissing? && (ListsViews(ms, vs) ==> Blames(ms, r.error))
  {
    ShownByMember(ms, vs, BindingsOf, BindingView);
    for k := 0 to |ms|
      invariant forall i, b :: 0 <= i < k && b in BindingsOf(ms[i]) ==> BindingView(vs, ms[i].id, b).Ok?
    {
      var m := ms[k];
      for j := 0 to |m.bindings|
        invariant forall i :: 0 <= i < j ==> BindingView(vs, m.id, m.bindings[i]).Ok?
      {
        var b := m.bindings[j];
        if !Unique(vs, b.payloadRef, Schema.EventPayload) {
          assert b in BindingsOf(m) && BindingView(vs, m.id, b).Err?;
          if ListsViews(ms, vs) { UniqueExact(ms, vs, b.payloadRef, Schema.EventPayload); }
          return Err(BindingSchemaMissing(m.id, b.kind, b.payloadRef));
        }
      }
    }
    r := Ok(());
  }

  // Once subscriptions and bindings are checked, only an operation can be to blame.
  lemma {:induction false} OnlyOperationsFail(ms: seq<Module>, vs: seq<SchemaView>, e: RefError)
    requires ListsViews(ms, vs)
    requires AllShown(vs, SubscriptionView, Tagged(ms, SubscriptionsOf)) && AllShown(vs, BindingView, Tagged(ms, BindingsOf))
    requires Failing(ms, vs, OperationsOf, OperationView, e) || Failing(ms, vs, SubscriptionsOf, SubscriptionView, e)
             || Failing(ms, vs, BindingsOf, BindingView, e)
    ensures Blames(ms, Unresolved(e))
  {
    if Failing(ms, vs, SubscriptionsOf, SubscriptionView, e) { FailingIsNotShown(ms, vs, SubscriptionsOf, SubscriptionView, e); }
    if Failing(ms, vs, BindingsOf, BindingView, e) { FailingIsNotShown(ms, vs, BindingsOf, BindingView, e); }
    UnresolvedBlames(ms, vs, e);
  }

  // The reference checks of a build. Only operations can still fail in the interface.
  method CheckReferences(ghost encode: Schema.Encoder, ms: seq<Module>, vs: seq<SchemaView>)
    returns (r: Result<InterfaceView, BuildError>)
    requires Mounted(encode, ms) && ListsViews(ms, vs)
    ensures r.Ok? <==> AllDeclared(ms)
    ensures r.Ok? ==> IsInterface(ms, vs, r.value)
    ensures r.Err? ==> !r.error.EmptyHost? && Blames(ms, r.error)
  {
    ResolveExact(ms, vs);
    MountableIds(ms);
    var checked := ValidateSubscriptions(ms, vs);
    if checked.Err? { return Err(checked.error); }
    checked := ValidateBindings(ms, vs);
    if checked.Err? { return Err(checked.error); }
    var view := ComputeInterface(encode, ms, vs);
    if view.Err? {
      OnlyOperationsFail(ms, vs, view.error);
      return Err(Unresolved(view.error));
    }
    r := Ok(view.value);
  }

  /** Mounted modules always lower: no operation lacks a handler, is invalid or repeats. */
  lemma MountedLowers(encode: Schema.Encoder, ms: seq<Module>)
    requires Mounted(encode, ms)
    ensures Lowerable(ms)
  {
    forall k | 0 <= k < |ms| ensures Apart(ms[..k], ms[k]) {
      forall a, d, e | a in ms[..k] && d in a.operations && e in ms[k].operations ensures d.name != e.name {
        var i :| 0 <= i < k && ms[i] == a;
        assert Compatible(ms[i], ms[k]);
      }
    }
    forall m | m in ms ensures KeysDistinct(NameOf, m.operations) {
      PiecesDistinct(encode, m);
    }
  }

  lemma RoutedJudges(g: CompositeGuard, ms: seq<Module>)
    requires Routed(g, ms)
    ensures JudgedByOwn(ms, if g.guards == [] then None else Some(Admission(g)))
  {
    forall m, d, turn, input | m in ms && d in m.operations
      ensures Judgement(if g.guards == [] then None else Some(Admission(g)), turn, d, input) == Judgement(m.guard, turn, d, input)
    {
      assert RoutesTo(g, m, d);
    }
  }

  lemma {:induction false} KindsDistinct(encode: Schema.Encoder, ms: seq<Module>)
    requires Mounted(encode, ms)
    ensures KeysDistinct(BoundKind, Tagged(ms, BindingsOf))
  {
    var t := Tagged(ms, BindingsOf);
    MountableIds(ms);
    forall m | m in ms ensures KeysDistinct(KindOf, BindingsOf(m)) { PiecesDistinct(encode, m); }
    TaggedDistinct(ms, BindingsOf, KindOf);
    TaggedMembers(ms, BindingsOf);
    forall i, j | 0 <= i < j < |t| ensures BoundKind(t[i]) != BoundKind(t[j]) {
      assert TagKey<Binding, Kind>(KindOf)(t[i]) != TagKey<Binding, Kind>(KindOf)(t[j]);
      assert t[i] in t && t[j] in t;
      var a :| a in ms && a.id == t[i].0 && t[i].1 in BindingsOf(a);
      var b :| b in ms && b.id == t[j].0 && t[j].1 in BindingsOf(b);
      if a != b { MountableMembers(ms, a, b); }
    }
  }

  lemma {:induction false} BoundExact(ms: seq<Module>, bound: map<Kind, string>)
    requires forall k, reference ::
               Holds(bound, k, reference) <==> exists p :: p in Tagged(ms, BindingsOf) && p.1 == Binding(k, reference)
    ensures IsBound(ms, bound)
  {
    TaggedMembers(ms, BindingsOf);
    forall k, reference ensures Holds(bound, k, reference) <==> Binds(ms, k, reference) {
      if Holds(bound, k, reference) {
        var p :| p in Tagged(ms, BindingsOf) && p.1 == Binding(k, reference);
        assert FromModule(ms, BindingsOf, p);
      }
      if Binds(ms, k, reference) {
        var m :| m in ms && Binding(k, reference) in m.bindings;
        assert FromModule(ms, BindingsOf, (m.id, Binding(k, reference)));
        assert (m.id, Binding(k, reference)) in Tagged(ms, BindingsOf);
      }
    }
  }

  method WrapBackend(env: Setting, ms: seq<Module>, c: Contract, bindings: seq<(string, Binding)>) returns (b: Option<Backend>)
    requires Mounted(env.encode, ms) && bindings == Tagged(ms, BindingsOf)
    ensures IsBackend(env, ms, c, b)
  {
    if env.backend.None? { return None; }
    KindsDistinct(env.encode, ms);
    var bound := BoundKinds(bindings);
    BoundExact(ms, bound);
    b := Some(ValidatingBackend(c, bound, env.backend.value));
  }

  // Lower the modules, attach guard, sink and backend, and build the runtime. Neither
  // lowering nor the runtime's own validation can fail.
  method WireCore(env: Setting, ms: seq<Module>, c: Contract) returns (core: Core, l: Lowered)
    requires Mounted(env.encode, ms)
    ensures IsCore(env, ms, c, core) && Collects(ms, l)
  {
    MountedLowers(env.encode, ms);
    var builder;
    l, builder := LowerModules(c, ms);
    var guard := InstalledGuard(l.guard, ms);
    var backend := WrapBackend(env, ms, c, l.bindings);
    core := FinishCore(builder, guard, env.receiptSink, backend);
  }

  // Attach the actors and build; with both tables filled in step, the build succeeds.
  method FinishCore(builder: SyncCore.CoreBuilder, guard: Option<Guard>, sink: Option<ReceiptSink>, backend: Option<Backend>)
    returns (core: Core)
    requires builder.Valid() && builder.handlers.Keys == builder.descriptors.Keys
    modifies builder`guard, builder`receiptSink, builder`backend
    ensures Wired(core) && core.descriptors == old(builder.descriptors) && core.handlers == old(builder.handlers)
    ensures core.guard == guard && core.receiptSink == sink && core.statusSink == old(builder.statusSink) && core.backend == backend
    ensures core.hash == old(builder.hash)
  {
    builder.guard, builder.receiptSink, builder.backend := guard, sink, backend;
    assert builder.Valid() && builder.descriptors.Keys == builder.handlers.Keys;
    var built := builder.Build();
    assert built.Ok?;
    core := built.value;
  }

  // A composite guard is installed only if some module brought a guard.
  method InstalledGuard(g: CompositeGuard, ghost ms: seq<Module>) returns (guard: Option<Guard>)
    requires Routed(g, ms)
    ensures JudgedByOwn(ms, guard)
  {
    RoutedJudges(g, ms);
    guard := if g.guards == [] then None else Some(Admission(g));
  }

  lemma {:induction false} OperationsListed(ms: seq<Module>)
    ensures forall d :: d in AllOperations(ms) <==> exists m :: m in ms && d in m.operations
  {
    if ms != [] {
      var n := |ms| - 1;
      OperationsListed(ms[..n]);
      assert forall m :: m in ms <==> m in ms[..n] || m == ms[n];
    }
  }

  lemma {:induction false} OperationsDistinct(ms: seq<Module>)
    requires NamesApart(ms)
    ensures KeysDistinct(NameOf, AllOperations(ms))
  {
    if ms != [] {
      var n := |ms| - 1;
      var front := ms[..n];
      forall k | 0 <= k < n ensures Apart(front[..k], front[k]) { assert front[..k] == ms[..k]; }
      OperationsDistinct(front);
      OperationsListed(front);
      assert ms[n] in ms;
      DistinctAppend(NameOf, AllOperations(front), ms[n].operations);
    }
  }

  lemma {:induction false} SortedOperations(encode: Schema.Encoder, ms: seq<Module>)
    requires Mounted(encode, ms)
    ensures ListsOperations(ms, Sort(ByKey(StrLe, NameOf), AllOperations(ms)))
  {
    MountedLowers(encode, ms);
    OperationsListed(ms);
    OperationsDistinct(ms);
    StrTotalOrder();
    KeyedSort(StrLe, NameOf, AllOperations(ms));
  }

  // The reference checks against the composition's own schemas.
  method CheckComposition(ghost encode: Schema.Encoder, ms: seq<Module>, composition: seq<Entry>)
    returns (r: Result<InterfaceView, BuildError>)
    requires Mounted(encode, ms) && IsComposition(ms, composition)
    ensures r.Ok? <==> AllDeclared(ms)
    ensures r.Ok? ==> IsInterface(ms, Map(IdentityOf, composition), r.value)
    ensures r.Err? ==> !r.error.EmptyHost? && Blames(ms, r.error)
  {
    MountableAgree(encode, ms);
    IdentityViews(ms, composition);
    r := CheckReferences(encode, ms, Map(IdentityOf, composition));
  }

  // A host exists iff every reference resolves; nothing else can go wrong.
  method BuildHost(env: Setting, ms: seq<Module>, composition: seq<Entry>) returns (r: Result<Host, BuildError>)
    requires Mounted(env.encode, ms) && IsComposition(ms, composition)
    ensures r.Ok? <==> AllDeclared(ms)
    ensures r.Ok? ==> IsHost(env, ms, r.value) && FaceSays(ms, r.value)
    ensures r.Err? ==> !r.error.EmptyHost? && Blames(ms, r.error)
  {
    var view := CheckComposition(env.encode, ms, composition);
    if view.Err? { return Err(view.error); }
    var registry := Schema.FromDescriptors(Map(DescriptorOf, composition));
    var core, l := WireCore(env, ms, Contract(registry, env.encode, env.decodes));
    var h := Assembled(ms, composition, registry, core, l, view.value);
    AssembledFace(env.encode, ms, composition, registry, core, l, view.value);
    FaceExact(env, ms, h);
    r := Ok(h);
  }

  // The parts of a host, each list in its canonical order.
  function Assembled(ms: seq<Module>, composition: seq<Entry>, registry: Schema.Registry, core: Core, l: Lowered, view: InterfaceView)
    : Host
  {
    Host(
      core, Fingerprint(ms), view,
      Sort(ByKey(StrLe, NameOf), l.operations),
      Sort(ByKey(PairLe(StrLe, StrLe), TagKey(SubscriptionId)), l.subscriptions),
      Sort(ByKey(PairLe(StrLe, KindLe), TagKey(KindOf)), l.bindings),
      composition, registry,
      Sort(ByKey(SlotLe(), Slot), l.startup),
      Sort(ByKey(SlotLe(), Slot), l.shutdown))
  }

  lemma AssembledFace(encode: Schema.Encoder, ms: seq<Module>, composition: seq<Entry>, registry: Schema.Registry,
                      core: Core, l: Lowered, view: InterfaceView)
    requires Mounted(encode, ms) && Collects(ms, l) && IsInterface(ms, Map(IdentityOf, composition), view)
    ensures IsFace(ms, Assembled(ms, composition, registry, core, l, view))
  {
    SortedOperations(encode, ms);
  }
}
