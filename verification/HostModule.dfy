/**
 A host module: the parts it declares, the implementations behind them, and the
 builder that seals the two together.
 */
module HostModule {
  import opened Sorting
  import opened Evidence
  import opened EffectRow
  import opened Dispatch
  import Schema

  datatype Phase = Startup | Shutdown

  // `body` stands for the hook's implementation.
  datatype Hook = Hook(phase: Phase, name: string, order: nat, body: nat)

  datatype Source =
    | EventCategory(category: nat)
    | EntityStream(entity: string)
    | ReceiptStream(receiptKind: string)
    | Projection(projection: string)
    | OperationStatus(operation: string)

  function RequiredRole(s: Source): Schema.Role {
    match s
    case EventCategory(_) => Schema.EventPayload
    case EntityStream(_) => Schema.EventPayload
    case ReceiptStream(_) => Schema.ReceiptPayload
    case Projection(_) => Schema.SubscriptionPayload
    case OperationStatus(_) => Schema.SubscriptionPayload
  }

  /** Events and entities stream event payloads, receipts stream receipt payloads, and
      projections and operation statuses stream subscription payloads. */
  lemma RolesRequired(s: Source)
    ensures RequiredRole(s) == Schema.EventPayload <==> s.EventCategory? || s.EntityStream?
    ensures RequiredRole(s) == Schema.ReceiptPayload <==> s.ReceiptStream?
    ensures RequiredRole(s) == Schema.SubscriptionPayload <==> s.Projection? || s.OperationStatus?
  {
  }

  datatype Subscription = Subscription(id: string, source: Source, payloadRef: string, delivery: string, capacity: nat)

  datatype Binding = Binding(kind: Kind, payloadRef: string)

  // The `(id, version, role)` identity of a schema.
  datatype Key = Key(id: string, version: nat, role: Schema.Role)

  function KeyOf(s: Schema.Descriptor): Key { Key(s.id, s.version, s.role) }

  predicate KeyLe(a: Key, b: Key) {
    if a.id != b.id then StrLe(a.id, b.id)
    else if a.version != b.version then a.version < b.version
    else Schema.Rank(a.role) <= Schema.Rank(b.role)
  }

  // Keys ascend by id, then version, then role, roles in their declared order.
  ghost predicate KeyBefore(a: Key, b: Key) {
    || StrBefore(a.id, b.id)
    || (a.id == b.id && a.version < b.version)
    || (a.id == b.id && a.version == b.version && RoleBefore(a.role, b.role))
  }

  ghost predicate RoleBefore(a: Schema.Role, b: Schema.Role) {
    match a
    case OperationInput => b != a
    case OperationOutput => b != a && !b.OperationInput?
    case EventPayload => b.ReceiptPayload? || b.SubscriptionPayload?
    case ReceiptPayload => b.SubscriptionPayload?
    case SubscriptionPayload => false
  }

  /** The schema order is by id, version and role. */
  lemma KeyOrder(a: Key, b: Key)
    ensures KeyLe(a, b) && a != b <==> KeyBefore(a, b)
  {
    assert a == b <==> a.id == b.id && a.version == b.version && a.role == b.role;
  }

  lemma KeyTotalOrder()
    ensures TotalOrder(KeyLe)
  {
    StrTotalOrder();
  }

  datatype Module = Module(
    id: string,
    version: nat,
    operations: seq<Descriptor>,
    namespaces: seq<string>,
    guardCode: Option<string>,
    hooks: seq<Hook>,
    jobs: seq<string>,
    schemas: seq<Schema.Descriptor>,
    subscriptions: seq<Subscription>,
    bindings: seq<Binding>,
    digest: Hash,
    handlers: map<string, Handler>,
    guard: Option<Guard>)

  // The declarative parts a module digest is sealed over. Effect rows and
  // implementations are not among them.
  datatype OperationPart = OperationPart(name: string, effect: EffectClass, inputRef: string, outputRef: string, receiptKind: string)
  datatype HookPart = HookPart(phase: Phase, name: string, order: nat)
  datatype SchemaView = SchemaView(id: string, version: nat, role: Schema.Role, encoding: Hash)

  datatype ManifestView = ManifestView(
    id: string,
    version: nat,
    operations: seq<OperationPart>,
    namespaces: seq<string>,
    guardCode: Option<string>,
    hooks: seq<HookPart>,
    jobs: seq<string>,
    schemas: seq<SchemaView>,
    subscriptions: seq<Subscription>,
    bindings: seq<Binding>)

  function ViewSchema(s: Schema.Descriptor): SchemaView { SchemaView(s.id, s.version, s.role, s.encoding) }

  function ManifestOf(m: Module): ManifestView {
    ManifestView(
      m.id, m.version,
      seq(|m.operations|, i requires 0 <= i < |m.operations| =>
        var d := m.operations[i]; OperationPart(d.name, d.effect, d.inputRef, d.outputRef, d.receiptKind)),
      m.namespaces, m.guardCode,
      seq(|m.hooks|, i requires 0 <= i < |m.hooks| =>
        var h := m.hooks[i]; HookPart(h.phase, h.name, h.order)),
      m.jobs,
      seq(|m.schemas|, i requires 0 <= i < |m.schemas| => ViewSchema(m.schemas[i])),
      m.subscriptions, m.bindings)
  }

  // The two modules declare the same thing in every part a digest covers.
  ghost predicate SameDeclaredParts(m: Module, n: Module) {
    && m.id == n.id && m.version == n.version && m.guardCode == n.guardCode
    && m.namespaces == n.namespaces && m.jobs == n.jobs && m.subscriptions == n.subscriptions && m.bindings == n.bindings
    && |m.operations| == |n.operations|
    && (forall i :: 0 <= i < |m.operations| ==>
          var d, e := m.operations[i], n.operations[i];
          d.name == e.name && d.effect == e.effect && d.inputRef == e.inputRef && d.outputRef == e.outputRef && d.receiptKind == e.receiptKind)
    && |m.hooks| == |n.hooks|
    && (forall i :: 0 <= i < |m.hooks| ==>
          var h, k := m.hooks[i], n.hooks[i]; h.phase == k.phase && h.name == k.name && h.order == k.order)
    && |m.schemas| == |n.schemas|
    && (forall i :: 0 <= i < |m.schemas| ==>
          var s, u := m.schemas[i], n.schemas[i];
          s.id == u.id && s.version == u.version && s.role == u.role && s.encoding == u.encoding)
  }

  /** A manifest covers every declared part, and nothing else: two modules have one manifest
      iff they declare the same. */
  lemma ManifestCovers(m: Module, n: Module)
    ensures ManifestOf(m) == ManifestOf(n) <==> SameDeclaredParts(m, n)
  {
    var a, b := ManifestOf(m), ManifestOf(n);
    if a == b {
      forall i | 0 <= i < |m.operations| ensures
        var d, e := m.operations[i], n.operations[i];
        d.name == e.name && d.effect == e.effect && d.inputRef == e.inputRef && d.outputRef == e.outputRef && d.receiptKind == e.receiptKind
      {
        assert a.operations[i] == b.operations[i];
      }
      forall i | 0 <= i < |m.hooks| ensures
        var h, k := m.hooks[i], n.hooks[i]; h.phase == k.phase && h.name == k.name && h.order == k.order
      {
        assert a.hooks[i] == b.hooks[i];
      }
      forall i | 0 <= i < |m.schemas| ensures
        var s, u := m.schemas[i], n.schemas[i];
        s.id == u.id && s.version == u.version && s.role == u.role && s.encoding == u.encoding
      {
        assert a.schemas[i] == b.schemas[i];
      }
    }
    if SameDeclaredParts(m, n) {
      assert a.operations == b.operations && a.hooks == b.hooks && a.schemas == b.schemas;
    }
  }

  type Seal = ManifestView -> Hash

  // ----- What a sealed module is -----

  function NameOf(d: Descriptor): string { d.name }

  function SubscriptionId(s: Subscription): string { s.id }

  function KindOf(b: Binding): Kind { b.kind }

  predicate KindLe(a: Kind, b: Kind) { a <= b }

  // Where a hook runs within its module.
  function SlotOf(h: Hook): (Phase, nat) { (h.phase, h.order) }

  // No two hooks of a phase share an order.
  ghost predicate HooksDistinct(hooks: seq<Hook>) { KeysDistinct(SlotOf, hooks) }

  // Every list is in its canonical order without repetition, every operation is valid
  // and has a handler, no two hooks contend, and every schema encodes what it declares.
  ghost predicate Coherent(encode: Schema.Encoder, m: Module) {
    && KeySorted(StrLe, NameOf, m.operations)
    && (forall d :: d in m.operations ==> ValidDescriptor(d) && d.name in m.handlers)
    && StrictlySorted(StrLe, m.namespaces) && StrictlySorted(StrLe, m.jobs)
    && KeySorted(KeyLe, KeyOf, m.schemas)
    && KeySorted(StrLe, SubscriptionId, m.subscriptions)
    && KeySorted(KindLe, KindOf, m.bindings)
    && HooksDistinct(m.hooks)
    && (forall s :: s in m.schemas ==> Schema.VerifyEncoding(encode, s))
  }

  // `HostModuleManifest::verify_hash`: the digest is the seal of the declared parts.
  predicate VerifyHash(seal: Seal, m: Module) { m.digest == seal(ManifestOf(m)) }
}
