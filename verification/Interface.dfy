/**
 What a composed host shows: its fingerprint and interface pre-images, its canonical
 lists and its hook schedules. All are fixed by the set of mounted modules.
 */
module Interface {
  import opened Sorting
  import opened Evidence
  import opened EffectRow
  import opened Dispatch
  import opened HostModule
  import opened Composition
  import Schema

  // ----- Lists tagged with the owning module -----

  function Tag<T>(id: string, xs: seq<T>): (r: seq<(string, T)>)
    ensures |r| == |xs| && forall i :: 0 <= i < |xs| ==> r[i] == (id, xs[i])
  {
    seq(|xs|, i requires 0 <= i < |xs| => (id, xs[i]))
  }

  // The items of each module in mount order.
  function Tagged<T>(ms: seq<Module>, items: Module -> seq<T>): seq<(string, T)> {
    if ms == [] then []
    else
      var n := |ms| - 1;
      Tagged(ms[..n], items) + Tag(ms[n].id, items(ms[n]))
  }

  function OperationsOf(m: Module): seq<Descriptor> { m.operations }

  function SubscriptionsOf(m: Module): seq<Subscription> { m.subscriptions }

  function BindingsOf(m: Module): seq<Binding> { m.bindings }

  predicate InPhase(phase: Phase, h: Hook) { h.phase == phase }

  function StartupHooks(m: Module): seq<Hook> { Filter((h: Hook) => InPhase(Startup, h), m.hooks) }

  function ShutdownHooks(m: Module): seq<Hook> { Filter((h: Hook) => InPhase(Shutdown, h), m.hooks) }

  ghost predicate FromModule<T>(ms: seq<Module>, items: Module -> seq<T>, p: (string, T)) {
    exists m :: m in ms && m.id == p.0 && p.1 in items(m)
  }

  lemma {:induction false} TaggedMembers<T(!new)>(ms: seq<Module>, items: Module -> seq<T>)
    ensures forall p :: p in Tagged(ms, items) <==> FromModule(ms, items, p)
  {
    if ms != [] {
      var n := |ms| - 1;
      TaggedMembers(ms[..n], items);
      var last := Tag(ms[n].id, items(ms[n]));
      forall p ensures p in Tagged(ms, items) <==> FromModule(ms, items, p) {
        assert p in last <==> p.0 == ms[n].id && p.1 in items(ms[n]) by { TagMembers(ms[n].id, items(ms[n]), p); }
        assert forall m :: m in ms <==> m in ms[..n] || m == ms[n];
      }
    }
  }

  lemma TagMembers<T(!new)>(id: string, xs: seq<T>, p: (string, T))
    ensures p in Tag(id, xs) <==> p.0 == id && p.1 in xs
  {
    if p.0 == id && p.1 in xs {
      var i :| 0 <= i < |xs| && xs[i] == p.1;
      assert Tag(id, xs)[i] == p;
    }
  }

  // The owning module, then the item's own key.
  function TagKey<T, K>(key: T -> K): ((string, T)) -> (string, K) { (p: (string, T)) => (p.0, key(p.1)) }

  lemma {:induction false} TaggedDistinct<T(!new), K(!new)>(ms: seq<Module>, items: Module -> seq<T>, key: T -> K)
    requires KeysDistinct(ModuleId, ms) && forall m :: m in ms ==> KeysDistinct(key, items(m))
    ensures KeysDistinct(TagKey(key), Tagged(ms, items))
  {
    if ms != [] {
      var n := |ms| - 1;
      var front, last := Tagged(ms[..n], items), Tag(ms[n].id, items(ms[n]));
      TaggedDistinct(ms[..n], items, key);
      TaggedMembers(ms[..n], items);
      forall p, q | p in front && q in last ensures p.0 != q.0 {
        var m :| m in ms[..n] && m.id == p.0 && p.1 in items(m);
        var i :| 0 <= i < n && ms[i] == m;
        assert ModuleId(ms[i]) != ModuleId(ms[n]);
      }
      DistinctAppend(TagKey(key), front, last);
    }
  }

  lemma DistinctAppend<T(!new), K(!new)>(key: T -> K, s: seq<T>, t: seq<T>)
    requires KeysDistinct(key, s) && KeysDistinct(key, t)
    requires forall p, q :: p in s && q in t ==> key(p) != key(q)
    ensures KeysDistinct(key, s + t)
  {
    var r := s + t;
    forall i, j | 0 <= i < j < |r| ensures key(r[i]) != key(r[j]) {
      if i < |s| <= j { assert s[i] in s && t[j - |s|] in t; }
    }
  }

  function PairLe<A(==), B>(le: (A, A) -> bool, le': (B, B) -> bool): ((A, B), (A, B)) -> bool {
    (p: (A, B), q: (A, B)) => if p.0 != q.0 then le(p.0, q.0) else le'(p.1, q.1)
  }

  lemma PairTotalOrder<A(!new), B(!new)>(le: (A, A) -> bool, le': (B, B) -> bool)
    requires TotalOrder(le) && TotalOrder(le')
    ensures TotalOrder(PairLe(le, le'))
  {
    var pair := PairLe(le, le');
    forall p, q ensures (pair(p, q) || pair(q, p)) && (pair(p, q) && pair(q, p) ==> p == q) {
      assert le(p.0, q.0) || le(q.0, p.0);
      assert le'(p.1, q.1) || le'(q.1, p.1);
      assert p.0 == q.0 && p.1 == q.1 ==> p == q;
    }
    forall p, q, r | pair(p, q) && pair(q, r) ensures pair(p, r) {
      assert le(p.0, q.0) && le(q.0, r.0) ==> le(p.0, r.0);
      assert le'(p.1, q.1) && le'(q.1, r.1) ==> le'(p.1, r.1);
    }
  }

  // ----- H_host -----

  function FingerprintEntry(m: Module): (string, Hash) { (m.id, m.digest) }

  function EntryId(e: (string, Hash)): string { e.0 }

  // The fingerprint pre-image: every module's id and digest, by id.
  function Fingerprint(ms: seq<Module>): seq<(string, Hash)> {
    Sort(ByKey(StrLe, EntryId), Map(FingerprintEntry, ms))
  }

  lemma FingerprintForgetsOrder(ms: seq<Module>, ns: seq<Module>)
    requires multiset(ms) == multiset(ns) && KeysDistinct(ModuleId, ms)
    ensures Fingerprint(ms) == Fingerprint(ns)
  {
    StrTotalOrder();
    SameMembers(ms, ns);
    KeysDistinctPermute(ModuleId, ms, ns);
    FingerprintKeys(ms);
    FingerprintKeys(ns);
    KeyedSort(StrLe, EntryId, Map(FingerprintEntry, ms));
    KeyedSort(StrLe, EntryId, Map(FingerprintEntry, ns));
    MapMembers(FingerprintEntry, ms);
    MapMembers(FingerprintEntry, ns);
    KeySortedUnique(StrLe, EntryId, Fingerprint(ms), Fingerprint(ns));
  }

  lemma FingerprintKeys(ms: seq<Module>)
    requires KeysDistinct(ModuleId, ms)
    ensures KeysDistinct(EntryId, Map(FingerprintEntry, ms))
  {
    forall i, j | 0 <= i < j < |ms| ensures EntryId(FingerprintEntry(ms[i])) != EntryId(FingerprintEntry(ms[j])) {
      assert ModuleId(ms[i]) != ModuleId(ms[j]);
    }
  }

  // The list holds every module's id and digest, by strictly ascending id.
  ghost predicate IsFingerprint(ms: seq<Module>, entries: seq<(string, Hash)>) {
    && (forall i, j :: 0 <= i < j < |entries| ==> StrBefore(entries[i].0, entries[j].0))
    && (forall id, digest :: (id, digest) in entries <==> exists m :: m in ms && m.id == id && m.digest == digest)
  }

  /** The fingerprint is over every module's id and digest, and nothing else. */
  lemma FingerprintExact(ms: seq<Module>)
    requires KeysDistinct(ModuleId, ms)
    ensures IsFingerprint(ms, Fingerprint(ms))
  {
    StrTotalOrder();
    FingerprintKeys(ms);
    KeyedSort(StrLe, EntryId, Map(FingerprintEntry, ms));
    MapMembers(FingerprintEntry, ms);
    var entries := Fingerprint(ms);
    forall i, j | 0 <= i < j < |entries| ensures StrBefore(entries[i].0, entries[j].0) {
      assert StrLe(EntryId(entries[i]), EntryId(entries[j])) && EntryId(entries[i]) != EntryId(entries[j]);
    }
    forall id, digest ensures (id, digest) in entries <==> exists m :: m in ms && m.id == id && m.digest == digest {
      assert (id, digest) in entries <==> exists m :: m in ms && FingerprintEntry(m) == (id, digest);
    }
  }

  // ----- Schedules and canonical lists -----

  function Slot(p: (string, Hook)): (nat, (string, string)) { (p.1.order, (p.0, p.1.name)) }

  // The `(order, module, name)` order of the host's hooks.
  function SlotLe(): ((nat, (string, string)), (nat, (string, string))) -> bool { PairLe(NatLe, PairLe(StrLe, StrLe)) }

  lemma SlotTotalOrder()
    ensures TotalOrder(SlotLe())
  {
    StrTotalOrder();
    PairTotalOrder(StrLe, StrLe);
    PairTotalOrder(NatLe, PairLe(StrLe, StrLe));
  }

  // The hooks of one phase in the order the host runs them.
  function Schedule(ms: seq<Module>, hooks: Module -> seq<Hook>): seq<(string, Hook)> {
    Sort(ByKey(SlotLe(), Slot), Tagged(ms, hooks))
  }

  function OrderOf(h: Hook): nat { h.order }

  lemma {:induction false} SlotsOfPhase(phase: Phase, hooks: seq<Hook>)
    requires HooksDistinct(hooks)
    ensures KeysDistinct(OrderOf, Filter((h: Hook) => InPhase(phase, h), hooks))
  {
    FilterDistinct((h: Hook) => InPhase(phase, h), SlotOf, hooks);
    var f := Filter((h: Hook) => InPhase(phase, h), hooks);
    FilterMembers((h: Hook) => InPhase(phase, h), hooks);
    forall i, j | 0 <= i < j < |f| ensures OrderOf(f[i]) != OrderOf(f[j]) {
      assert f[i] in f && f[j] in f && SlotOf(f[i]) != SlotOf(f[j]);
    }
  }

  // The slots of a phase are distinct across the whole host.
  lemma {:induction false} SlotsDistinct(ms: seq<Module>, hooks: Module -> seq<Hook>)
    requires KeysDistinct(ModuleId, ms) && forall m :: m in ms ==> KeysDistinct(OrderOf, hooks(m))
    ensures KeysDistinct(Slot, Tagged(ms, hooks))
  {
    TaggedDistinct(ms, hooks, OrderOf);
    var t := Tagged(ms, hooks);
    forall i, j | 0 <= i < j < |t| ensures Slot(t[i]) != Slot(t[j]) {
      assert TagKey<Hook, nat>(OrderOf)(t[i]) != TagKey<Hook, nat>(OrderOf)(t[j]);
      assert Slot(t[i]).0 == OrderOf(t[i].1) && Slot(t[j]).0 == OrderOf(t[j].1);
    }
  }

  /** A phase runs in the same order whatever the mount order, and no two of its hooks
      contend for a place. */
  lemma ScheduleForgetsOrder(ms: seq<Module>, ns: seq<Module>, hooks: Module -> seq<Hook>)
    requires multiset(ms) == multiset(ns) && KeysDistinct(ModuleId, ms)
    requires forall m :: m in ms ==> KeysDistinct(OrderOf, hooks(m))
    ensures Schedule(ms, hooks) == Schedule(ns, hooks)
    ensures KeySorted(SlotLe(), Slot, Schedule(ms, hooks))
  {
    SlotTotalOrder();
    SameMembers(ms, ns);
    KeysDistinctPermute(ModuleId, ms, ns);
    SlotsDistinct(ms, hooks);
    SlotsDistinct(ns, hooks);
    SortedListsEqual(ms, ns, hooks, SlotLe(), Slot);
  }

  // The hooks of one phase, in the order they run: by order, then module, then name.
  ghost predicate IsSchedule(ms: seq<Module>, phase: Phase, hooks: seq<(string, Hook)>) {
    && (forall i, j :: 0 <= i < j < |hooks| ==> RunsBefore(hooks[i], hooks[j]))
    && (forall id, h :: (id, h) in hooks <==> exists m :: m in ms && m.id == id && h in m.hooks && h.phase == phase)
  }

  ghost predicate RunsBefore(p: (string, Hook), q: (string, Hook)) {
    || p.1.order < q.1.order
    || (p.1.order == q.1.order && (StrBefore(p.0, q.0) || (p.0 == q.0 && StrBefore(p.1.name, q.1.name))))
  }

  lemma SlotOrder(p: (string, Hook), q: (string, Hook))
    requires SlotLe()(Slot(p), Slot(q)) && Slot(p) != Slot(q)
    ensures RunsBefore(p, q)
  {
    var x, y := (p.0, p.1.name), (q.0, q.1.name);
    assert Slot(p) == (p.1.order, x) && Slot(q) == (q.1.order, y);
    assert p.1.order != q.1.order ==> NatLe(p.1.order, q.1.order);
    assert p.1.order == q.1.order ==> PairLe(StrLe, StrLe)(x, y) && x != y;
  }

  function HooksOf(phase: Phase): Module -> seq<Hook> { if phase == Startup then StartupHooks else ShutdownHooks }

  /** Each phase runs all its hooks, once each, by ascending order. */
  lemma ScheduleExact(ms: seq<Module>, phase: Phase)
    requires KeysDistinct(ModuleId, ms) && forall m :: m in ms ==> KeysDistinct(OrderOf, HooksOf(phase)(m))
    ensures IsSchedule(ms, phase, Schedule(ms, HooksOf(phase)))
  {
    var hooks := Schedule(ms, HooksOf(phase));
    ScheduleForgetsOrder(ms, ms, HooksOf(phase));
    SlotTotalOrder();
    SlotsDistinct(ms, HooksOf(phase));
    KeyedSort(SlotLe(), Slot, Tagged(ms, HooksOf(phase)));
    TaggedMembers(ms, HooksOf(phase));
    forall i, j | 0 <= i < j < |hooks| ensures RunsBefore(hooks[i], hooks[j]) {
      SlotOrder(hooks[i], hooks[j]);
    }
    forall id, h ensures (id, h) in hooks <==> exists m :: m in ms && m.id == id && h in m.hooks && h.phase == phase {
      assert (id, h) in hooks <==> FromModule(ms, HooksOf(phase), (id, h));
      forall m ensures h in HooksOf(phase)(m) <==> h in m.hooks && h.phase == phase {
        FilterMembers((k: Hook) => InPhase(phase, k), m.hooks);
      }
    }
  }

  // A list of tagged items sorted by distinct keys forgets the mount order.
  lemma {:induction false} SortedListsEqual<T(!new), K(!new)>(ms: seq<Module>, ns: seq<Module>, items: Module -> seq<T>,
                                           le: (K, K) -> bool, key: ((string, T)) -> K)
    requires TotalOrder(le) && forall m :: m in ms <==> m in ns
    requires KeysDistinct(key, Tagged(ms, items)) && KeysDistinct(key, Tagged(ns, items))
    ensures Sort(ByKey(le, key), Tagged(ms, items)) == Sort(ByKey(le, key), Tagged(ns, items))
    ensures KeySorted(le, key, Sort(ByKey(le, key), Tagged(ms, items)))
  {
    KeyedSort(le, key, Tagged(ms, items));
    KeyedSort(le, key, Tagged(ns, items));
    TaggedMembers(ms, items);
    TaggedMembers(ns, items);
    forall p: (string, T) ensures FromModule(ms, items, p) <==> FromModule(ns, items, p) {}
    KeySortedUnique(le, key, Sort(ByKey(le, key), Tagged(ms, items)), Sort(ByKey(le, key), Tagged(ns, items)));
  }

  // A canonical list: tagged items by module id, then by their own key.
  function Canonical<T, K>(le: (K, K) -> bool, key: T -> K, ms: seq<Module>, items: Module -> seq<T>): seq<(string, T)> {
    Sort(ByKey(PairLe(StrLe, le), TagKey(key)), Tagged(ms, items))
  }

  lemma CanonicalForgetsOrder<T(!new), K(!new)>(le: (K, K) -> bool, key: T -> K, ms: seq<Module>, ns: seq<Module>,
                                                items: Module -> seq<T>)
    requires TotalOrder(le)
    requires multiset(ms) == multiset(ns) && KeysDistinct(ModuleId, ms) && forall m :: m in ms ==> KeysDistinct(key, items(m))
    ensures Canonical(le, key, ms, items) == Canonical(le, key, ns, items)
  {
    StrTotalOrder();
    PairTotalOrder(StrLe, le);
    SameMembers(ms, ns);
    KeysDistinctPermute(ModuleId, ms, ns);
    TaggedDistinct(ms, items, key);
    TaggedDistinct(ns, items, key);
    SortedListsEqual(ms, ns, items, PairLe(StrLe, le), TagKey(key));
  }

  // The list holds every module's items, by module id and then by their own key.
  ghost predicate IsCanonical<T(!new), K>(before: (K, K) -> bool, key: T -> K, ms: seq<Module>, items: Module -> seq<T>, list: seq<(string, T)>) {
    && (forall i, j :: 0 <= i < j < |list| ==>
          StrBefore(list[i].0, list[j].0) || (list[i].0 == list[j].0 && before(key(list[i].1), key(list[j].1))))
    && (forall id, x :: (id, x) in list <==> exists m :: m in ms && m.id == id && x in items(m))
  }

  lemma CanonicalExact<T(!new), K(!new)>(le: (K, K) -> bool, before: (K, K) -> bool, key: T -> K, ms: seq<Module>, items: Module -> seq<T>)
    requires TotalOrder(le) && forall a, b :: before(a, b) <==> le(a, b) && a != b
    requires KeysDistinct(ModuleId, ms) && forall m :: m in ms ==> KeysDistinct(key, items(m))
    ensures IsCanonical(before, key, ms, items, Canonical(le, key, ms, items))
  {
    StrTotalOrder();
    PairTotalOrder(StrLe, le);
    TaggedDistinct(ms, items, key);
    KeyedSort(PairLe(StrLe, le), TagKey(key), Tagged(ms, items));
    TaggedMembers(ms, items);
    var list := Canonical(le, key, ms, items);
    forall i, j | 0 <= i < j < |list| ensures
      StrBefore(list[i].0, list[j].0) || (list[i].0 == list[j].0 && before(key(list[i].1), key(list[j].1)))
    {
      var p, q := TagKey(key)(list[i]), TagKey(key)(list[j]);
      assert PairLe(StrLe, le)(p, q) && p != q;
    }
    forall id, x ensures (id, x) in list <==> exists m :: m in ms && m.id == id && x in items(m) {
      assert (id, x) in list <==> FromModule(ms, items, (id, x));
    }
  }

  // ----- Resolving references -----

  datatype RefError =
    | ReferenceMissing(owner: string, operation: Option<string>, reference: string, role: Schema.Role)
    | ReferenceAmbiguous(owner: string, operation: Option<string>, reference: string, role: Schema.Role, versions: seq<nat>)

  // The composition's schemas a reference could mean.
  function Meanings(vs: seq<SchemaView>, reference: string, role: Schema.Role): seq<SchemaView> {
    Filter((v: SchemaView) => v.id == reference && v.role == role, vs)
  }

  predicate Unique(vs: seq<SchemaView>, reference: string, role: Schema.Role) { |Meanings(vs, reference, role)| == 1 }

  function VersionOf(v: SchemaView): nat { v.version }

  function ResolveRef(vs: seq<SchemaView>, owner: string, operation: Option<string>, reference: string, role: Schema.Role)
    : Result<SchemaView, RefError>
  {
    var found := Meanings(vs, reference, role);
    if |found| == 1 then Ok(found[0])
    else if found == [] then Err(ReferenceMissing(owner, operation, reference, role))
    else Err(ReferenceAmbiguous(owner, operation, reference, role, Map(VersionOf, found)))
  }

  // Static matching over views sees exactly the candidates of the runtime registry.
  lemma {:induction false} MeaningsAreCandidates(ds: seq<Schema.Descriptor>, reference: string, role: Schema.Role)
    ensures Meanings(Map(ViewSchema, ds), reference, role) == Map(ViewSchema, Schema.Candidates(ds, reference, role))
  {
    if ds != [] {
      MeaningsAreCandidates(ds[1..], reference, role);
      assert Map(ViewSchema, ds)[1..] == Map(ViewSchema, ds[1..]);
      var rest := Schema.Candidates(ds[1..], reference, role);
      assert Map(ViewSchema, [ds[0]] + rest) == [ViewSchema(ds[0])] + Map(ViewSchema, rest);
    }
  }

  // ----- H_interface -----

  datatype OperationIface = OperationIface(
    owner: string, name: string, input: SchemaView, output: SchemaView, receiptKind: string, receipt: SchemaView)
  datatype SubscriptionIface = SubscriptionIface(owner: string, subscription: Subscription, payload: SchemaView)
  datatype BindingIface = BindingIface(owner: string, kind: Kind, payload: SchemaView)

  datatype InterfaceView = InterfaceView(
    operations: seq<OperationIface>,
    subscriptions: seq<SubscriptionIface>,
    bindings: seq<BindingIface>,
    exported: seq<SchemaView>)

  function OperationView(vs: seq<SchemaView>, owner: string, d: Descriptor): Result<OperationIface, RefError> {
    var input := ResolveRef(vs, owner, Some(d.name), d.inputRef, Schema.OperationInput);
    var output := ResolveRef(vs, owner, Some(d.name), d.outputRef, Schema.OperationOutput);
    var receipt := ResolveRef(vs, owner, Some(d.name), d.receiptKind, Schema.ReceiptPayload);
    if input.Err? then Err(input.error)
    else if output.Err? then Err(output.error)
    else if receipt.Err? then Err(receipt.error)
    else Ok(OperationIface(owner, d.name, input.value, output.value, d.receiptKind, receipt.value))
  }

  function SubscriptionView(vs: seq<SchemaView>, owner: string, s: Subscription): Result<SubscriptionIface, RefError> {
    match ResolveRef(vs, owner, None, s.payloadRef, RequiredRole(s.source))
    case Ok(payload) => Ok(SubscriptionIface(owner, s, payload))
    case Err(error) => Err(error)
  }

  function BindingView(vs: seq<SchemaView>, owner: string, b: Binding): Result<BindingIface, RefError> {
    match ResolveRef(vs, owner, None, b.payloadRef, Schema.EventPayload)
    case Ok(payload) => Ok(BindingIface(owner, b.kind, payload))
    case Err(error) => Err(error)
  }

  function OperationIfaceKey(v: OperationIface): (string, string) { (v.owner, v.name) }

  function SubscriptionIfaceKey(v: SubscriptionIface): (string, string) { (v.owner, v.subscription.id) }

  function BindingIfaceKey(v: BindingIface): (string, Kind) { (v.owner, v.kind) }

  function ExportKey(v: SchemaView): (string, nat) { (v.id, v.version) }

  predicate IsEventPayload(v: SchemaView) { v.role == Schema.EventPayload }

  // A view of some item of some module.
  ghost predicate Shown<T(!new), V>(ms: seq<Module>, vs: seq<SchemaView>, items: Module -> seq<T>,
                                    view: (seq<SchemaView>, string, T) -> Result<V, RefError>, v: V) {
    exists p :: FromModule(ms, items, p) && view(vs, p.0, p.1) == Ok(v)
  }

  // The interface lists a view of every declared item, and nothing else, in key order.
  ghost predicate IsInterface(ms: seq<Module>, vs: seq<SchemaView>, i: InterfaceView) {
    && KeySorted(PairLe(StrLe, StrLe), OperationIfaceKey, i.operations)
    && (forall v :: v in i.operations <==> Shown(ms, vs, OperationsOf, OperationView, v))
    && KeySorted(PairLe(StrLe, StrLe), SubscriptionIfaceKey, i.subscriptions)
    && (forall v :: v in i.subscriptions <==> Shown(ms, vs, SubscriptionsOf, SubscriptionView, v))
    && KeySorted(PairLe(StrLe, KindLe), BindingIfaceKey, i.bindings)
    && (forall v :: v in i.bindings <==> Shown(ms, vs, BindingsOf, BindingView, v))
    && i.exported == Sort(ByKey(PairLe(StrLe, NatLe), ExportKey), Filter(IsEventPayload, vs))
  }

  lemma ShownForgetsOrder<T(!new), V(!new)>(ms: seq<Module>, ns: seq<Module>, vs: seq<SchemaView>, items: Module -> seq<T>,
                                            view: (seq<SchemaView>, string, T) -> Result<V, RefError>, v: V)
    requires multiset(ms) == multiset(ns) && Shown(ms, vs, items, view, v)
    ensures Shown(ns, vs, items, view, v)
  {
    SameMembers(ms, ns);
    var p :| FromModule(ms, items, p) && view(vs, p.0, p.1) == Ok(v);
    assert FromModule(ns, items, p);
  }

  lemma ListsForgetOrder<T(!new), V(!new), K(!new)>(
    ms: seq<Module>, ns: seq<Module>, vs: seq<SchemaView>, items: Module -> seq<T>,
    view: (seq<SchemaView>, string, T) -> Result<V, RefError>, le: (K, K) -> bool, key: V -> K, a: seq<V>, b: seq<V>)
    requires multiset(ms) == multiset(ns) && TotalOrder(le) && KeySorted(le, key, a) && KeySorted(le, key, b)
    requires forall v :: v in a <==> Shown(ms, vs, items, view, v)
    requires forall v :: v in b <==> Shown(ns, vs, items, view, v)
    ensures a == b
  {
    forall v ensures v in a <==> v in b {
      if v in a { ShownForgetsOrder(ms, ns, vs, items, view, v); }
      if v in b { ShownForgetsOrder(ns, ms, vs, items, view, v); }
    }
    KeySortedUnique(le, key, a, b);
  }

  lemma InterfaceForgetsOrder(ms: seq<Module>, ns: seq<Module>, vs: seq<SchemaView>, i: InterfaceView, j: InterfaceView)
    requires multiset(ms) == multiset(ns) && IsInterface(ms, vs, i) && IsInterface(ns, vs, j)
    ensures i == j
  {
    StrTotalOrder();
    assert TotalOrder(KindLe);
    PairTotalOrder(StrLe, StrLe);
    PairTotalOrder(StrLe, KindLe);
    ListsForgetOrder(ms, ns, vs, OperationsOf, OperationView, PairLe(StrLe, StrLe), OperationIfaceKey, i.operations, j.operations);
    ListsForgetOrder(ms, ns, vs, SubscriptionsOf, SubscriptionView, PairLe(StrLe, StrLe), SubscriptionIfaceKey,
                     i.subscriptions, j.subscriptions);
    ListsForgetOrder(ms, ns, vs, BindingsOf, BindingView, PairLe(StrLe, KindLe), BindingIfaceKey, i.bindings, j.bindings);
  }

  // ----- What the interface says -----

  // The reference has this one meaning.
  ghost predicate Means(vs: seq<SchemaView>, reference: string, role: Schema.Role, v: SchemaView) {
    v in vs && v.id == reference && v.role == role && Unique(vs, reference, role)
  }

  /** A reference resolves to its one meaning; without one it is missing, with several it
      is ambiguous, and the error says which reference of which operation of which module. */
  lemma {:induction false} ResolveRefExact(vs: seq<SchemaView>, owner: string, operation: Option<string>, reference: string, role: Schema.Role)
    ensures match ResolveRef(vs, owner, operation, reference, role)
            case Ok(v) => Means(vs, reference, role, v)
            case Err(e) =>
              && !Unique(vs, reference, role)
              && e.owner == owner && e.operation == operation && e.reference == reference && e.role == role
              && (e.ReferenceMissing? <==> forall v :: v in vs ==> !(v.id == reference && v.role == role))
              && (e.ReferenceAmbiguous? ==> VersionsOf(Meanings(vs, reference, role), e.versions))
  {
    FilterMembers((v: SchemaView) => v.id == reference && v.role == role, vs);
    var found := Meanings(vs, reference, role);
    if found != [] { assert found[0] in found; }
  }

  ghost predicate VersionsOf(found: seq<SchemaView>, versions: seq<nat>) {
    |versions| == |found| && forall i :: 0 <= i < |found| ==> versions[i] == found[i].version
  }

  ghost predicate OperationShown(ms: seq<Module>, vs: seq<SchemaView>, v: OperationIface) {
    exists m, d :: m in ms && d in m.operations
      && v.owner == m.id && v.name == d.name && v.receiptKind == d.receiptKind
      && Means(vs, d.inputRef, Schema.OperationInput, v.input)
      && Means(vs, d.outputRef, Schema.OperationOutput, v.output)
      && Means(vs, d.receiptKind, Schema.ReceiptPayload, v.receipt)
  }

  ghost predicate SubscriptionShown(ms: seq<Module>, vs: seq<SchemaView>, v: SubscriptionIface) {
    exists m :: m in ms && v.owner == m.id && v.subscription in m.subscriptions
      && Means(vs, v.subscription.payloadRef, RequiredRole(v.subscription.source), v.payload)
  }

  ghost predicate BindingShown(ms: seq<Module>, vs: seq<SchemaView>, v: BindingIface) {
    exists m, b :: m in ms && b in m.bindings && v.owner == m.id && v.kind == b.kind
      && Means(vs, b.payloadRef, Schema.EventPayload, v.payload)
  }

  // The same, item by item, with the order spelt out.
  ghost predicate InterfaceSays(ms: seq<Module>, vs: seq<SchemaView>, i: InterfaceView) {
    && (forall a, b :: 0 <= a < b < |i.operations| ==>
          var x, y := i.operations[a], i.operations[b]; StrBefore(x.owner, y.owner) || (x.owner == y.owner && StrBefore(x.name, y.name)))
    && (forall v :: v in i.operations <==> OperationShown(ms, vs, v))
    && (forall a, b :: 0 <= a < b < |i.subscriptions| ==>
          var x, y := i.subscriptions[a], i.subscriptions[b];
          StrBefore(x.owner, y.owner) || (x.owner == y.owner && StrBefore(x.subscription.id, y.subscription.id)))
    && (forall v :: v in i.subscriptions <==> SubscriptionShown(ms, vs, v))
    && (forall a, b :: 0 <= a < b < |i.bindings| ==>
          var x, y := i.bindings[a], i.bindings[b]; StrBefore(x.owner, y.owner) || (x.owner == y.owner && x.kind < y.kind))
    && (forall v :: v in i.bindings <==> BindingShown(ms, vs, v))
    && (forall a, b :: 0 <= a < b < |i.exported| ==>
          var x, y := i.exported[a], i.exported[b]; StrBefore(x.id, y.id) || (x.id == y.id && x.version <= y.version))
    && (forall v :: v in i.exported <==> v in vs && v.role == Schema.EventPayload)
  }

  lemma OperationViewExact(vs: seq<SchemaView>, owner: string, d: Descriptor, v: OperationIface)
    ensures OperationView(vs, owner, d) == Ok(v) <==>
            && v.owner == owner && v.name == d.name && v.receiptKind == d.receiptKind
            && Means(vs, d.inputRef, Schema.OperationInput, v.input)
            && Means(vs, d.outputRef, Schema.OperationOutput, v.output)
            && Means(vs, d.receiptKind, Schema.ReceiptPayload, v.receipt)
  {
    MeansExact(vs, owner, Some(d.name), d.inputRef, Schema.OperationInput, v.input);
    MeansExact(vs, owner, Some(d.name), d.outputRef, Schema.OperationOutput, v.output);
    MeansExact(vs, owner, Some(d.name), d.receiptKind, Schema.ReceiptPayload, v.receipt);
  }

  lemma {:induction false} MeansExact(vs: seq<SchemaView>, owner: string, operation: Option<string>, reference: string, role: Schema.Role, v: SchemaView)
    ensures ResolveRef(vs, owner, operation, reference, role) == Ok(v) <==> Means(vs, reference, role, v)
  {
    FilterMembers((x: SchemaView) => x.id == reference && x.role == role, vs);
    var found := Meanings(vs, reference, role);
    assert v in found <==> v in vs && v.id == reference && v.role == role;
    if |found| == 1 { assert forall x :: x in found <==> x == found[0]; }
  }

  lemma OperationsShown(ms: seq<Module>, vs: seq<SchemaView>, v: OperationIface)
    ensures Shown(ms, vs, OperationsOf, OperationView, v) <==> OperationShown(ms, vs, v)
  {
    forall owner, d ensures OperationView(vs, owner, d) == Ok(v) <==>
            && v.owner == owner && v.name == d.name && v.receiptKind == d.receiptKind
            && Means(vs, d.inputRef, Schema.OperationInput, v.input)
            && Means(vs, d.outputRef, Schema.OperationOutput, v.output)
            && Means(vs, d.receiptKind, Schema.ReceiptPayload, v.receipt)
    {
      OperationViewExact(vs, owner, d, v);
    }
    if OperationShown(ms, vs, v) {
      var m, d :| m in ms && d in m.operations && v.owner == m.id && v.name == d.name && v.receiptKind == d.receiptKind
        && Means(vs, d.inputRef, Schema.OperationInput, v.input)
        && Means(vs, d.outputRef, Schema.OperationOutput, v.output)
        && Means(vs, d.receiptKind, Schema.ReceiptPayload, v.receipt);
      assert FromModule(ms, OperationsOf, (m.id, d));
    }
  }

  lemma SubscriptionsShown(ms: seq<Module>, vs: seq<SchemaView>, v: SubscriptionIface)
    ensures Shown(ms, vs, SubscriptionsOf, SubscriptionView, v) <==> SubscriptionShown(ms, vs, v)
  {
    forall owner, s ensures SubscriptionView(vs, owner, s) == Ok(v) <==>
            v.owner == owner && v.subscription == s && Means(vs, s.payloadRef, RequiredRole(s.source), v.payload)
    {
      MeansExact(vs, owner, None, s.payloadRef, RequiredRole(s.source), v.payload);
    }
    if SubscriptionShown(ms, vs, v) { assert FromModule(ms, SubscriptionsOf, (v.owner, v.subscription)); }
  }

  lemma BindingsShown(ms: seq<Module>, vs: seq<SchemaView>, v: BindingIface)
    ensures Shown(ms, vs, BindingsOf, BindingView, v) <==> BindingShown(ms, vs, v)
  {
    forall owner, b ensures BindingView(vs, owner, b) == Ok(v) <==>
            v.owner == owner && v.kind == b.kind && Means(vs, b.payloadRef, Schema.EventPayload, v.payload)
    {
      MeansExact(vs, owner, None, b.payloadRef, Schema.EventPayload, v.payload);
    }
    if BindingShown(ms, vs, v) {
      var m, b :| m in ms && b in m.bindings && v.owner == m.id && v.kind == b.kind && Means(vs, b.payloadRef, Schema.EventPayload, v.payload);
      assert FromModule(ms, BindingsOf, (m.id, b));
    }
  }

  lemma {:induction false} ExportsInOrder(vs: seq<SchemaView>, exported: seq<SchemaView>)
    requires exported == Sort(ByKey(PairLe(StrLe, NatLe), ExportKey), Filter(IsEventPayload, vs))
    ensures forall a, b :: 0 <= a < b < |exported| ==>
              var x, y := exported[a], exported[b]; StrBefore(x.id, y.id) || (x.id == y.id && x.version <= y.version)
    ensures forall v :: v in exported <==> v in vs && v.role == Schema.EventPayload
  {
    StrTotalOrder();
    PairTotalOrder(StrLe, NatLe);
    ByKeyPreorder(PairLe(StrLe, NatLe), ExportKey);
    SortSorts(ByKey(PairLe(StrLe, NatLe), ExportKey), Filter(IsEventPayload, vs));
    FilterMembers(IsEventPayload, vs);
    forall a, b | 0 <= a < b < |exported| ensures
      var x, y := exported[a], exported[b]; StrBefore(x.id, y.id) || (x.id == y.id && x.version <= y.version)
    {
      assert PairLe(StrLe, NatLe)(ExportKey(exported[a]), ExportKey(exported[b]));
    }
  }

  /** The interface says, for each operation, subscription and binding of each module, what
      its references mean, and lists the event payloads, each in its own order. */
  lemma InterfaceExact(ms: seq<Module>, vs: seq<SchemaView>, i: InterfaceView)
    requires IsInterface(ms, vs, i)
    ensures InterfaceSays(ms, vs, i)
  {
    forall v ensures v in i.operations <==> OperationShown(ms, vs, v) { OperationsShown(ms, vs, v); }
    forall v ensures v in i.subscriptions <==> SubscriptionShown(ms, vs, v) { SubscriptionsShown(ms, vs, v); }
    forall v ensures v in i.bindings <==> BindingShown(ms, vs, v) { BindingsShown(ms, vs, v); }
    ExportsInOrder(vs, i.exported);
    InterfaceOrders(ms, vs, i);
  }

  lemma InterfaceOrders(ms: seq<Module>, vs: seq<SchemaView>, i: InterfaceView)
    requires KeySorted(PairLe(StrLe, StrLe), OperationIfaceKey, i.operations)
    requires KeySorted(PairLe(StrLe, StrLe), SubscriptionIfaceKey, i.subscriptions)
    requires KeySorted(PairLe(StrLe, KindLe), BindingIfaceKey, i.bindings)
    ensures forall a, b :: 0 <= a < b < |i.operations| ==>
              var x, y := i.operations[a], i.operations[b]; StrBefore(x.owner, y.owner) || (x.owner == y.owner && StrBefore(x.name, y.name))
    ensures forall a, b :: 0 <= a < b < |i.subscriptions| ==>
              var x, y := i.subscriptions[a], i.subscriptions[b];
              StrBefore(x.owner, y.owner) || (x.owner == y.owner && StrBefore(x.subscription.id, y.subscription.id))
    ensures forall a, b :: 0 <= a < b < |i.bindings| ==>
              var x, y := i.bindings[a], i.bindings[b]; StrBefore(x.owner, y.owner) || (x.owner == y.owner && x.kind < y.kind)
  {
    forall a, b | 0 <= a < b < |i.operations| ensures
      var x, y := i.operations[a], i.operations[b]; StrBefore(x.owner, y.owner) || (x.owner == y.owner && StrBefore(x.name, y.name))
    {
      assert PairLe(StrLe, StrLe)(OperationIfaceKey(i.operations[a]), OperationIfaceKey(i.operations[b]));
    }
    forall a, b | 0 <= a < b < |i.subscriptions| ensures
      var x, y := i.subscriptions[a], i.subscriptions[b];
      StrBefore(x.owner, y.owner) || (x.owner == y.owner && StrBefore(x.subscription.id, y.subscription.id))
    {
      assert PairLe(StrLe, StrLe)(SubscriptionIfaceKey(i.subscriptions[a]), SubscriptionIfaceKey(i.subscriptions[b]));
    }
    forall a, b | 0 <= a < b < |i.bindings| ensures
      var x, y := i.bindings[a], i.bindings[b]; StrBefore(x.owner, y.owner) || (x.owner == y.owner && x.kind < y.kind)
    {
      assert PairLe(StrLe, KindLe)(BindingIfaceKey(i.bindings[a]), BindingIfaceKey(i.bindings[b]));
    }
  }

  // ----- Computing the interface -----

  ghost predicate AllShown<T(!new), V(!new)>(vs: seq<SchemaView>, view: (seq<SchemaView>, string, T) -> Result<V, RefError>,
                                             xs: seq<(string, T)>) {
    forall p :: p in xs ==> view(vs, p.0, p.1).Ok?
  }

  // Some item of some module has no view, and this is why.
  ghost predicate Failing<T(!new), V>(ms: seq<Module>, vs: seq<SchemaView>, items: Module -> seq<T>,
                                      view: (seq<SchemaView>, string, T) -> Result<V, RefError>, e: RefError) {
    exists p :: FromModule(ms, items, p) && view(vs, p.0, p.1) == Err(e)
  }

  lemma {:induction false} FailingIsNotShown<T(!new), V(!new)>(
    ms: seq<Module>, vs: seq<SchemaView>, items: Module -> seq<T>,
    view: (seq<SchemaView>, string, T) -> Result<V, RefError>, e: RefError)
    requires Failing(ms, vs, items, view, e)
    ensures !AllShown(vs, view, Tagged(ms, items))
  {
    TaggedMembers(ms, items);
    var p :| FromModule(ms, items, p) && view(vs, p.0, p.1) == Err(e);
    assert p in Tagged(ms, items);
  }

  lemma {:induction false} FailsIn<T(!new), V(!new)>(ms: seq<Module>, k: nat, vs: seq<SchemaView>, items: Module -> seq<T>,
                                  view: (seq<SchemaView>, string, T) -> Result<V, RefError>, x: T, e: RefError)
    requires k < |ms| && x in items(ms[k]) && view(vs, ms[k].id, x) == Err(e)
    ensures Failing(ms, vs, items, view, e) && !AllShown(vs, view, Tagged(ms, items))
  {
    assert FromModule(ms, items, (ms[k].id, x));
    FailingIsNotShown(ms, vs, items, view, e);
  }

  // `out` is the views of `xs`, one by one.
  ghost predicate Views<T(!new), V(!new)>(vs: seq<SchemaView>, view: (seq<SchemaView>, string, T) -> Result<V, RefError>,
                                          xs: seq<(string, T)>, out: seq<V>) {
    |out| == |xs| && forall i :: 0 <= i < |xs| ==> view(vs, xs[i].0, xs[i].1) == Ok(out[i])
  }

  method ViewItems<T(!new), V(!new)>(vs: seq<SchemaView>, view: (seq<SchemaView>, string, T) -> Result<V, RefError>,
                                     owner: string, items: seq<T>) returns (r: Result<seq<V>, RefError>)
    ensures r.Ok? <==> AllShown(vs, view, Tag(owner, items))
    ensures r.Ok? ==> Views(vs, view, Tag(owner, items), r.value)
    ensures r.Err? ==> exists x :: x in items && view(vs, owner, x) == Err(r.error)
  {
    var out := [];
    var tagged := Tag(owner, items);
    for i := 0 to |items|
      invariant |out| == i && forall j :: 0 <= j < i ==> view(vs, owner, items[j]) == Ok(out[j])
    {
      var v := view(vs, owner, items[i]);
      if v.Err? {
        assert tagged[i] in tagged;
        return Err(v.error);
      }
      out := out + [v.value];
    }
    r := Ok(out);
  }

  lemma TaggedStep<T(!new)>(ms: seq<Module>, items: Module -> seq<T>, k: nat)
    requires k < |ms|
    ensures Tagged(ms[..k + 1], items) == Tagged(ms[..k], items) + Tag(ms[k].id, items(ms[k]))
  {
    assert ms[..k + 1][..k] == ms[..k];
  }

  // The views of the tagged items of all modules, sorted, are the canonical list.
  lemma {:induction false} ViewsSorted<T(!new), V(!new), K(!new)>(
    ms: seq<Module>, vs: seq<SchemaView>, items: Module -> seq<T>, view: (seq<SchemaView>, string, T) -> Result<V, RefError>,
    le: (K, K) -> bool, keyT: T -> K, keyV: V -> (string, K), out: seq<V>)
    requires TotalOrder(le) && KeysDistinct(ModuleId, ms) && forall m :: m in ms ==> KeysDistinct(keyT, items(m))
    requires Views(vs, view, Tagged(ms, items), out)
    requires forall id, x, v :: view(vs, id, x) == Ok(v) ==> keyV(v) == (id, keyT(x))
    ensures KeySorted(PairLe(StrLe, le), keyV, Sort(ByKey(PairLe(StrLe, le), keyV), out))
    ensures forall v :: v in Sort(ByKey(PairLe(StrLe, le), keyV), out) <==> Shown(ms, vs, items, view, v)
  {
    var tagged := Tagged(ms, items);
    TaggedDistinct(ms, items, keyT);
    ViewKeysDistinct(vs, view, keyT, keyV, tagged, out);
    StrTotalOrder();
    PairTotalOrder(StrLe, le);
    KeyedSort(PairLe(StrLe, le), keyV, out);
    TaggedMembers(ms, items);
    forall v ensures v in out <==> Shown(ms, vs, items, view, v) {
      if v in out {
        var i :| 0 <= i < |out| && out[i] == v;
        assert tagged[i] in tagged;
      }
      if Shown(ms, vs, items, view, v) {
        var p :| FromModule(ms, items, p) && view(vs, p.0, p.1) == Ok(v);
        assert p in tagged;
        var i :| 0 <= i < |tagged| && tagged[i] == p;
        assert out[i] == v;
      }
    }
  }

  lemma ViewKeysDistinct<T(!new), V(!new), K(!new)>(
    vs: seq<SchemaView>, view: (seq<SchemaView>, string, T) -> Result<V, RefError>,
    keyT: T -> K, keyV: V -> (string, K), xs: seq<(string, T)>, out: seq<V>)
    requires KeysDistinct(TagKey(keyT), xs) && Views(vs, view, xs, out)
    requires forall id, x, v :: view(vs, id, x) == Ok(v) ==> keyV(v) == (id, keyT(x))
    ensures KeysDistinct(keyV, out)
  {
    forall i, j | 0 <= i < j < |out| ensures keyV(out[i]) != keyV(out[j]) {
      assert TagKey(keyT)(xs[i]) != TagKey(keyT)(xs[j]);
      assert view(vs, xs[i].0, xs[i].1) == Ok(out[i]) && view(vs, xs[j].0, xs[j].1) == Ok(out[j]);
    }
  }

  lemma ViewsConcat<T(!new), V(!new)>(vs: seq<SchemaView>, view: (seq<SchemaView>, string, T) -> Result<V, RefError>,
                                      xs: seq<(string, T)>, out: seq<V>, ys: seq<(string, T)>, more: seq<V>)
    requires Views(vs, view, xs, out) && Views(vs, view, ys, more)
    ensures Views(vs, view, xs + ys, out + more)
  {
  }

  // Views of every module's items, in mount order, up to the first that has none.
  ghost predicate Viewed(ms: seq<Module>, vs: seq<SchemaView>, operations: seq<OperationIface>,
                         subscriptions: seq<SubscriptionIface>, bindings: seq<BindingIface>) {
    && Views(vs, OperationView, Tagged(ms, OperationsOf), operations)
    && Views(vs, SubscriptionView, Tagged(ms, SubscriptionsOf), subscriptions)
    && Views(vs, BindingView, Tagged(ms, BindingsOf), bindings)
  }

  ghost predicate AllResolve(ms: seq<Module>, vs: seq<SchemaView>) {
    && AllShown(vs, OperationView, Tagged(ms, OperationsOf))
    && AllShown(vs, SubscriptionView, Tagged(ms, SubscriptionsOf))
    && AllShown(vs, BindingView, Tagged(ms, BindingsOf))
  }

  lemma ViewedStep(ms: seq<Module>, k: nat, vs: seq<SchemaView>, ops: seq<OperationIface>, subs: seq<SubscriptionIface>,
                   binds: seq<BindingIface>, ops': seq<OperationIface>, subs': seq<SubscriptionIface>, binds': seq<BindingIface>)
    requires k < |ms| && Viewed(ms[..k], vs, ops, subs, binds)
    requires Views(vs, OperationView, Tag(ms[k].id, ms[k].operations), ops')
    requires Views(vs, SubscriptionView, Tag(ms[k].id, ms[k].subscriptions), subs')
    requires Views(vs, BindingView, Tag(ms[k].id, ms[k].bindings), binds')
    ensures Viewed(ms[..k + 1], vs, ops + ops', subs + subs', binds + binds')
  {
    TaggedStep(ms, OperationsOf, k);
    TaggedStep(ms, SubscriptionsOf, k);
    TaggedStep(ms, BindingsOf, k);
    ViewsConcat(vs, OperationView, Tagged(ms[..k], OperationsOf), ops, Tag(ms[k].id, ms[k].operations), ops');
    ViewsConcat(vs, SubscriptionView, Tagged(ms[..k], SubscriptionsOf), subs, Tag(ms[k].id, ms[k].subscriptions), subs');
    ViewsConcat(vs, BindingView, Tagged(ms[..k], BindingsOf), binds, Tag(ms[k].id, ms[k].bindings), binds');
  }

  lemma ViewedResolves(ms: seq<Module>, vs: seq<SchemaView>, ops: seq<OperationIface>, subs: seq<SubscriptionIface>,
                       binds: seq<BindingIface>)
    requires Viewed(ms, vs, ops, subs, binds)
    ensures AllResolve(ms, vs)
  {
  }

  // The pieces of a coherent, mountable set of modules have distinct keys.
  lemma PiecesDistinct(encode: Schema.Encoder, m: Module)
    requires Coherent(encode, m)
    ensures KeysDistinct(NameOf, OperationsOf(m)) && KeysDistinct(SubscriptionId, SubscriptionsOf(m))
    ensures KeysDistinct(KindOf, BindingsOf(m))
    ensures KeysDistinct(OrderOf, StartupHooks(m)) && KeysDistinct(OrderOf, ShutdownHooks(m))
  {
    SlotsOfPhase(Startup, m.hooks);
    SlotsOfPhase(Shutdown, m.hooks);
  }

  lemma SortedInterface(ms: seq<Module>, vs: seq<SchemaView>, ops: seq<OperationIface>, subs: seq<SubscriptionIface>,
                        binds: seq<BindingIface>)
    requires KeysDistinct(ModuleId, ms) && Viewed(ms, vs, ops, subs, binds)
    requires forall m :: m in ms ==> KeysDistinct(NameOf, OperationsOf(m)) && KeysDistinct(SubscriptionId, SubscriptionsOf(m))
                                     && KeysDistinct(KindOf, BindingsOf(m))
    ensures IsInterface(ms, vs, Finished(vs, ops, subs, binds))
  {
    StrTotalOrder();
    assert TotalOrder(KindLe);
    ViewsSorted(ms, vs, OperationsOf, OperationView, StrLe, NameOf, OperationIfaceKey, ops);
    ViewsSorted(ms, vs, SubscriptionsOf, SubscriptionView, StrLe, SubscriptionId, SubscriptionIfaceKey, subs);
    ViewsSorted(ms, vs, BindingsOf, BindingView, KindLe, KindOf, BindingIfaceKey, binds);
  }

  // The collected views in their canonical orders.
  function Finished(vs: seq<SchemaView>, ops: seq<OperationIface>, subs: seq<SubscriptionIface>, binds: seq<BindingIface>)
    : InterfaceView
  {
    InterfaceView(
      Sort(ByKey(PairLe(StrLe, StrLe), OperationIfaceKey), ops),
      Sort(ByKey(PairLe(StrLe, StrLe), SubscriptionIfaceKey), subs),
      Sort(ByKey(PairLe(StrLe, KindLe), BindingIfaceKey), binds),
      Sort(ByKey(PairLe(StrLe, NatLe), ExportKey), Filter(IsEventPayload, vs)))
  }

  // The interface exists iff every reference in it resolves to one schema.
  method ComputeInterface(ghost encode: Schema.Encoder, ms: seq<Module>, vs: seq<SchemaView>)
    returns (r: Result<InterfaceView, RefError>)
    requires KeysDistinct(ModuleId, ms) && forall m :: m in ms ==> Coherent(encode, m)
    ensures r.Ok? <==> AllResolve(ms, vs)
    ensures r.Ok? ==> IsInterface(ms, vs, r.value)
    ensures r.Err? ==> Failing(ms, vs, OperationsOf, OperationView, r.error)
                       || Failing(ms, vs, SubscriptionsOf, SubscriptionView, r.error)
                       || Failing(ms, vs, BindingsOf, BindingView, r.error)
  {
    var operations, subscriptions, bindings := [], [], [];
    for k := 0 to |ms|
      invariant Viewed(ms[..k], vs, operations, subscriptions, bindings)
    {
      var m := ms[k];
      var ops := ViewItems(vs, OperationView, m.id, m.operations);
      if ops.Err? {
        ghost var x :| x in m.operations && OperationView(vs, m.id, x) == Err(ops.error);
        FailsIn(ms, k, vs, OperationsOf, OperationView, x, ops.error);
        return Err(ops.error);
      }
      var subs := ViewItems(vs, SubscriptionView, m.id, m.subscriptions);
      if subs.Err? {
        ghost var x :| x in m.subscriptions && SubscriptionView(vs, m.id, x) == Err(subs.error);
        FailsIn(ms, k, vs, SubscriptionsOf, SubscriptionView, x, subs.error);
        return Err(subs.error);
      }
      var binds := ViewItems(vs, BindingView, m.id, m.bindings);
      if binds.Err? {
        ghost var x :| x in m.bindings && BindingView(vs, m.id, x) == Err(binds.error);
        FailsIn(ms, k, vs, BindingsOf, BindingView, x, binds.error);
        return Err(binds.error);
      }
      ViewedStep(ms, k, vs, operations, subscriptions, bindings, ops.value, subs.value, binds.value);
      operations, subscriptions, bindings := operations + ops.value, subscriptions + subs.value, bindings + binds.value;
    }
    assert ms[..|ms|] == ms;
    ViewedResolves(ms, vs, operations, subscriptions, bindings);
    forall m | m in ms ensures
      KeysDistinct(NameOf, OperationsOf(m)) && KeysDistinct(SubscriptionId, SubscriptionsOf(m)) && KeysDistinct(KindOf, BindingsOf(m))
    {
      PiecesDistinct(encode, m);
    }
    SortedInterface(ms, vs, operations, subscriptions, bindings);
    r := Ok(Finished(vs, operations, subscriptions, bindings));
  }
}
