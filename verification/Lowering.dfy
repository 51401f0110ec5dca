/**
 Lowering mounted modules into one runtime: handlers wrapped in schema validation, the
 module guards behind one routing guard, the backend behind payload validation.
 */
module Lowering {
  import opened Sorting
  import opened Evidence
  import opened EffectRow
  import opened Dispatch
  import opened HostModule
  import opened Mounting
  import opened Interface
  import Schema
  import SyncCore

  // The schema registry a host validates against, with the encoder and decoder it uses.
  datatype Contract = Contract(registry: Schema.Registry, encode: Schema.Encoder, decodes: Bytes -> bool)

  predicate Accepts(c: Contract, reference: string, role: Schema.Role, bytes: Bytes) {
    Schema.Validate(c.registry, c.encode, c.decodes, reference, role, bytes).Ok?
  }

  // ----- Handlers -----

  function CheckOutput(c: Contract, d: Descriptor, result: HandlerResult): HandlerResult {
    if result.Ok? && !Accepts(c, d.outputRef, Schema.OperationOutput, result.value)
    then Err(HandlerFailure("operation " + d.name + " output schema validation failed"))
    else result
  }

  // The same script, with its result checked before it is returned.
  function Checked(c: Contract, d: Descriptor, s: Script<HandlerResult>): Script<HandlerResult> {
    match s
    case Return(result) => Return(CheckOutput(c, d, result))
    case Perform(e, onOk, onErr) => Perform(e, Checked(c, d, onOk), Checked(c, d, onErr))
    case AttachSigned(key, value, next) => AttachSigned(key, value, Checked(c, d, next))
    case AttachLocal(key, value, next) => AttachLocal(key, value, Checked(c, d, next))
  }

  function RefuseInput(d: Descriptor): Script<HandlerResult> {
    Return(Err(InvalidInput("operation " + d.name + " input schema validation failed")))
  }

  // `SchemaValidatingHandler`
  function ValidatingHandler(c: Contract, d: Descriptor, inner: Handler): Handler {
    (turn: nat, input: Bytes) =>
      if Accepts(c, d.inputRef, Schema.OperationInput, input) then Checked(c, d, inner(turn, input)) else RefuseInput(d)
  }

  // ----- The backend -----

  // An append must have a bound kind and a payload its schema accepts.
  predicate Admissible(c: Contract, bound: map<Kind, string>, e: Effect) {
    e.AppendEvent? ==> e.kind in bound && Accepts(c, bound[e.kind], Schema.EventPayload, e.payload)
  }

  // `ValidatingEffectBackend`
  function ValidatingBackend(c: Contract, bound: map<Kind, string>, inner: Backend): Backend {
    Backend((e: Effect) => Admissible(c, bound, e) && inner.gate(e), inner.answer)
  }

  // ----- The guard -----

  datatype CompositeGuard = CompositeGuard(route: map<string, nat>, guards: seq<Guard>)

  // Each operation goes to the guard its route names; an unrouted one is admitted.
  function Admission(g: CompositeGuard): Guard {
    (turn: nat, d: Descriptor, input: Bytes) =>
      if d.name in g.route && g.route[d.name] < |g.guards| then g.guards[g.route[d.name]](turn, d, input) else Return(Admit)
  }

  // Route these operations to a new guard.
  method AddGuard(g: CompositeGuard, operations: seq<Descriptor>, guard: Guard) returns (r: CompositeGuard)
    ensures r.guards == g.guards + [guard]
    ensures forall n :: n in r.route <==> n in g.route || n in Names(operations)
    ensures forall n :: n in Names(operations) ==> r.route[n] == |g.guards|
    ensures forall n :: n in g.route && n !in Names(operations) ==> r.route[n] == g.route[n]
  {
    var index := |g.guards|;
    var route := g.route;
    for i := 0 to |operations|
      invariant forall n :: n in route <==> n in g.route || n in Names(operations[..i])
      invariant forall n :: n in Names(operations[..i]) ==> route[n] == index
      invariant forall n :: n in g.route && n !in Names(operations[..i]) ==> route[n] == g.route[n]
    {
      NamesStep(operations, i);
      route := route[operations[i].name := index];
    }
    assert operations[..|operations|] == operations;
    r := CompositeGuard(route, g.guards + [guard]);
  }

  // The guard routes `d`, an operation of `m`, to `m`'s own guard, if it has one.
  ghost predicate RoutesTo(g: CompositeGuard, m: Module, d: Descriptor) {
    if m.guard.Some?
    then d.name in g.route && g.route[d.name] < |g.guards| && g.guards[g.route[d.name]] == m.guard.value
    else d.name !in g.route
  }

  ghost predicate Routed(g: CompositeGuard, ms: seq<Module>) {
    && (forall n :: n in g.route ==> exists m, d :: m in ms && d in m.operations && d.name == n)
    && (forall m, d :: m in ms && d in m.operations ==> RoutesTo(g, m, d))
  }

  // ----- Operations -----

  function DescriptorItems(m: Module): (r: seq<(string, Descriptor)>)
    ensures |r| == |m.operations| && forall i :: 0 <= i < |r| ==> r[i] == (m.operations[i].name, m.operations[i])
  {
    seq(|m.operations|, i requires 0 <= i < |m.operations| => (m.operations[i].name, m.operations[i]))
  }

  // What one module needs to lower into a runtime that already holds `taken`.
  ghost predicate Fresh(taken: map<string, Descriptor>, m: Module) {
    && KeysDistinct(NameOf, m.operations)
    && forall d :: d in m.operations ==> ValidDescriptor(d) && d.name in m.handlers && d.name !in taken
  }

  // Every operation of `m` is registered behind validation.
  ghost predicate Serves(c: Contract, m: Module, handlers: map<string, Handler>) {
    forall d :: d in m.operations ==> ServedAs(c, m, d, handlers)
  }

  datatype LoweringError = NoHandler(owner: string, name: string) | Build(error: SyncCore.BuildError)

  // The tables of a runtime under construction, and the handlers still to be taken.
  datatype Stage = Stage(descriptors: map<string, Descriptor>, handlers: map<string, Handler>)

  ghost predicate Kept<V>(before: map<string, V>, after: map<string, V>) {
    forall n :: n in before ==> n in after && after[n] == before[n]
  }

  function Names(ds: seq<Descriptor>): set<string> {
    if ds == [] then {} else Names(ds[..|ds| - 1]) + {ds[|ds| - 1].name}
  }

  lemma {:induction false} NamesMember(ds: seq<Descriptor>, n: string)
    ensures n in Names(ds) <==> exists d :: d in ds && d.name == n
  {
    if ds != [] {
      NamesMember(ds[..|ds| - 1], n);
      assert forall d :: d in ds <==> d in ds[..|ds| - 1] || d == ds[|ds| - 1];
    }
  }

  lemma NamesStep(ds: seq<Descriptor>, i: nat)
    requires i < |ds|
    ensures Names(ds[..i + 1]) == Names(ds[..i]) + {ds[i].name}
  {
    assert ds[..i + 1][..i] == ds[..i];
  }

  // The first `i` operations of `m` are filed in `t`, on top of `t0`.
  ghost predicate Described(m: Module, i: nat, t0: map<string, Descriptor>, t: map<string, Descriptor>)
    requires i <= |m.operations|
  {
    && Kept(t0, t)
    && (forall j :: 0 <= j < i ==> m.operations[j].name in t && t[m.operations[j].name] == m.operations[j])
    && Names(m.operations[..i]) !! t0.Keys
    && t.Keys == t0.Keys + Names(m.operations[..i])
  }

  // The first `i` operations of `m` are served from `h`, on top of `h0`.
  ghost predicate Served(c: Contract, m: Module, i: nat, h0: map<string, Handler>, h: map<string, Handler>)
    requires i <= |m.operations|
  {
    && Kept(h0, h)
    && forall j :: 0 <= j < i ==> ServedAs(c, m, m.operations[j], h)
  }

  // `d` is registered behind validation.
  ghost predicate ServedAs(c: Contract, m: Module, d: Descriptor, h: map<string, Handler>) {
    d.name in m.handlers && d.name in h && h[d.name] == ValidatingHandler(c, d, m.handlers[d.name])
  }

  // The first `i` operations of `m` have been registered on top of `s0`.
  ghost predicate Progress(c: Contract, m: Module, i: nat, s0: Stage, s: Stage)
    requires i <= |m.operations|
  {
    && s.handlers.Keys == s.descriptors.Keys
    && Described(m, i, s0.descriptors, s.descriptors)
    && Served(c, m, i, s0.handlers, s.handlers)
  }

  lemma DescribedStep(m: Module, i: nat, t0: map<string, Descriptor>, t: map<string, Descriptor>)
    requires i < |m.operations| && Described(m, i, t0, t) && m.operations[i].name !in t
    ensures Described(m, i + 1, t0, t[m.operations[i].name := m.operations[i]])
  {
    NamesStep(m.operations, i);
  }

  lemma ServedStep(c: Contract, m: Module, i: nat, h0: map<string, Handler>, h: map<string, Handler>, handler: Handler)
    requires i < |m.operations| && Served(c, m, i, h0, h)
    requires m.operations[i].name in m.handlers && m.operations[i].name !in h
    requires handler == ValidatingHandler(c, m.operations[i], m.handlers[m.operations[i].name])
    ensures Served(c, m, i + 1, h0, h[m.operations[i].name := handler])
  {
    var d := m.operations[i];
    var h' := h[d.name := handler];
    forall j | 0 <= j < i ensures ServedAs(c, m, m.operations[j], h') {
      assert ServedAs(c, m, m.operations[j], h);
    }
    assert ServedAs(c, m, d, h');
  }

  // The handlers not yet taken by the first `i` operations.
  ghost predicate Remaining(m: Module, i: nat, rest: map<string, Handler>)
    requires i <= |m.operations|
  {
    && rest.Keys == m.handlers.Keys - Names(m.operations[..i])
    && Kept(rest, m.handlers)
  }

  lemma RemainingStep(m: Module, i: nat, rest: map<string, Handler>)
    requires i < |m.operations| && Remaining(m, i, rest)
    ensures Remaining(m, i + 1, rest - {m.operations[i].name})
  {
    NamesStep(m.operations, i);
  }

  lemma ProgressStep(c: Contract, m: Module, i: nat, s0: Stage, s: Stage, rest: map<string, Handler>, s': Stage)
    requires i < |m.operations| && Progress(c, m, i, s0, s) && Remaining(m, i, rest)
    requires var d := m.operations[i];
             && d.name in rest && d.name !in s.descriptors
             && s' == Stage(s.descriptors[d.name := d], s.handlers[d.name := ValidatingHandler(c, d, rest[d.name])])
    ensures Progress(c, m, i + 1, s0, s')
  {
    var d := m.operations[i];
    assert d.name in m.handlers && rest[d.name] == m.handlers[d.name];
    DescribedStep(m, i, s0.descriptors, s.descriptors);
    ServedStep(c, m, i, s0.handlers, s.handlers, ValidatingHandler(c, d, rest[d.name]));
  }

  // Lowering an operation fails only if the module was not fresh.
  lemma StuckIsStale(c: Contract, m: Module, i: nat, s0: Stage, s: Stage, rest: map<string, Handler>)
    requires i < |m.operations| && Progress(c, m, i, s0, s) && Remaining(m, i, rest)
    requires m.operations[i].name !in rest || !ValidDescriptor(m.operations[i]) || m.operations[i].name in s.descriptors
    ensures !Fresh(s0.descriptors, m)
  {
    var d := m.operations[i];
    assert d in m.operations;
    NamesMember(m.operations[..i], d.name);
    assert KeysDistinct(NameOf, m.operations) ==> forall j :: 0 <= j < i ==> NameOf(m.operations[j]) != NameOf(d);
  }

  lemma ProgressFills(c: Contract, m: Module, s0: Stage, s: Stage)
    requires Progress(c, m, |m.operations|, s0, s)
    ensures Filled(s0.descriptors, DescriptorItems(m), s.descriptors) && Serves(c, m, s.handlers)
  {
    var items := DescriptorItems(m);
    forall n, d ensures Holds(s.descriptors, n, d) <==> Holds(s0.descriptors, n, d) || (n, d) in items {
      if Holds(s.descriptors, n, d) && n !in s0.descriptors {
        assert m.operations[..|m.operations|] == m.operations;
        NamesMember(m.operations, n);
        var e :| e in m.operations && e.name == n;
        var j :| 0 <= j < |m.operations| && m.operations[j] == e;
        assert items[j] == (n, d);
      }
      if (n, d) in items {
        var j :| 0 <= j < |items| && items[j] == (n, d);
        assert m.operations[j] == d;
      }
    }
  }

  // Register the next operation with its handler, if the module has one left for it.
  method LowerNext(c: Contract, m: Module, i: nat, rest: map<string, Handler>, builder: SyncCore.CoreBuilder, ghost s0: Stage)
    returns (r: Result<(), LoweringError>)
    requires i < |m.operations| && builder.Valid()
    requires Progress(c, m, i, s0, Stage(builder.descriptors, builder.handlers)) && Remaining(m, i, rest)
    modifies builder`descriptors, builder`handlers
    ensures r.Err? ==> !Fresh(s0.descriptors, m)
    ensures r.Ok? ==> builder.Valid() && Progress(c, m, i + 1, s0, Stage(builder.descriptors, builder.handlers))
  {
    var d := m.operations[i];
    ghost var s := Stage(builder.descriptors, builder.handlers);
    if d.name !in rest {
      StuckIsStale(c, m, i, s0, s, rest);
      return Err(NoHandler(m.id, d.name));
    }
    var registered := builder.Register(d, ValidatingHandler(c, d, rest[d.name]));
    if registered.Err? {
      StuckIsStale(c, m, i, s0, s, rest);
      return Err(Build(registered.error));
    }
    ProgressStep(c, m, i, s0, s, rest, Stage(builder.descriptors, builder.handlers));
    r := Ok(());
  }

  lemma ProgressStart(c: Contract, m: Module, s0: Stage)
    requires s0.handlers.Keys == s0.descriptors.Keys
    ensures Progress(c, m, 0, s0, s0) && Remaining(m, 0, m.handlers)
  {
    assert Names(m.operations[..0]) == {};
  }

  method LowerOperations(c: Contract, m: Module, builder: SyncCore.CoreBuilder) returns (r: Result<(), LoweringError>)
    requires builder.Valid() && builder.handlers.Keys == builder.descriptors.Keys
    modifies builder`descriptors, builder`handlers
    ensures Fresh(old(builder.descriptors), m) ==> r.Ok?
    ensures r.Ok? ==> builder.Valid() && builder.handlers.Keys == builder.descriptors.Keys
    ensures r.Ok? ==> Filled(old(builder.descriptors), DescriptorItems(m), builder.descriptors)
    ensures r.Ok? ==> Serves(c, m, builder.handlers) && Kept(old(builder.handlers), builder.handlers)
  {
    var rest := m.handlers;
    ghost var s0 := Stage(builder.descriptors, builder.handlers);
    ProgressStart(c, m, s0);
    for i := 0 to |m.operations|
      invariant builder.Valid()
      invariant Progress(c, m, i, s0, Stage(builder.descriptors, builder.handlers)) && Remaining(m, i, rest)
    {
      var lowered := LowerNext(c, m, i, rest, builder, s0);
      if lowered.Err? { return lowered; }
      RemainingStep(m, i, rest);
      rest := rest - {m.operations[i].name};
    }
    ProgressFills(c, m, s0, Stage(builder.descriptors, builder.handlers));
    r := Ok(());
  }

  // ----- Modules -----

  // No operation of `m` is named like one of `ms`.
  ghost predicate Apart(ms: seq<Module>, m: Module) {
    forall a, d, e :: a in ms && d in a.operations && e in m.operations ==> d.name != e.name
  }

  // `g'` is `g` with the operations of `m` routed to its guard, if it has one.
  ghost predicate GuardAdded(g: CompositeGuard, m: Module, g': CompositeGuard) {
    if m.guard.None? then g' == g
    else
      && g'.guards == g.guards + [m.guard.value]
      && (forall n :: n in g'.route <==> n in g.route || n in Names(m.operations))
      && (forall n :: n in Names(m.operations) ==> g'.route[n] == |g.guards|)
      && (forall n :: n in g.route && n !in Names(m.operations) ==> g'.route[n] == g.route[n])
  }

  // Operations named apart from `m`'s keep their route.
  lemma RouteKept(g: CompositeGuard, m: Module, g': CompositeGuard, a: Module, d: Descriptor)
    requires GuardAdded(g, m, g') && RoutesTo(g, a, d) && d.name !in Names(m.operations)
    ensures RoutesTo(g', a, d)
  {
  }

  lemma RouteAdded(g: CompositeGuard, m: Module, g': CompositeGuard, d: Descriptor)
    requires GuardAdded(g, m, g') && d in m.operations && d.name !in g.route
    ensures RoutesTo(g', m, d)
  {
    NamesMember(m.operations, d.name);
  }

  lemma RoutedStep(g: CompositeGuard, ms: seq<Module>, m: Module, g': CompositeGuard)
    requires Routed(g, ms) && Apart(ms, m) && GuardAdded(g, m, g')
    ensures Routed(g', ms + [m])
  {
    forall a, d | a in ms + [m] && d in a.operations ensures RoutesTo(g', a, d) {
      if a in ms {
        NamesMember(m.operations, d.name);
        RouteKept(g, m, g', a, d);
      } else {
        RouteAdded(g, m, g', d);
      }
    }
    forall n | n in g'.route ensures exists a, d :: a in ms + [m] && d in a.operations && d.name == n {
      NamesMember(m.operations, n);
      if n in g.route {
        var a, d :| a in ms && d in a.operations && d.name == n;
        assert a in ms + [m];
      } else {
        assert m in ms + [m];
      }
    }
  }

  // Hooks go to the list of their phase, stamped with the module.
  method SplitHooks(id: string, hooks: seq<Hook>) returns (startup: seq<(string, Hook)>, shutdown: seq<(string, Hook)>)
    ensures startup == Tag(id, Filter((h: Hook) => InPhase(Startup, h), hooks))
    ensures shutdown == Tag(id, Filter((h: Hook) => InPhase(Shutdown, h), hooks))
  {
    startup, shutdown := [], [];
    for i := 0 to |hooks|
      invariant startup == Tag(id, Filter((h: Hook) => InPhase(Startup, h), hooks[..i]))
      invariant shutdown == Tag(id, Filter((h: Hook) => InPhase(Shutdown, h), hooks[..i]))
    {
      var hook := hooks[i];
      PhaseStep(id, Startup, hooks, i);
      PhaseStep(id, Shutdown, hooks, i);
      match hook.phase {
        case Startup => startup := startup + [(id, hook)];
        case Shutdown => shutdown := shutdown + [(id, hook)];
      }
    }
    assert hooks[..|hooks|] == hooks;
  }

  lemma PhaseStep(id: string, phase: Phase, hooks: seq<Hook>, i: nat)
    requires i < |hooks|
    ensures Tag(id, Filter((h: Hook) => InPhase(phase, h), hooks[..i + 1])) ==
            Tag(id, Filter((h: Hook) => InPhase(phase, h), hooks[..i])) + (if hooks[i].phase == phase then [(id, hooks[i])] else [])
  {
    var p := (h: Hook) => InPhase(phase, h);
    assert hooks[..i + 1] == hooks[..i] + [hooks[i]];
    FilterConcat(p, hooks[..i], [hooks[i]]);
    assert [hooks[i]][1..] == [];
    assert Filter(p, [hooks[i]]) == if hooks[i].phase == phase then [hooks[i]] else [];
  }

  // What lowering collects beside the runtime under construction.
  datatype Lowered = Lowered(
    guard: CompositeGuard,
    startup: seq<(string, Hook)>,
    shutdown: seq<(string, Hook)>,
    operations: seq<Descriptor>,
    subscriptions: seq<(string, Subscription)>,
    bindings: seq<(string, Binding)>)

  function AllOperations(ms: seq<Module>): seq<Descriptor> {
    if ms == [] then [] else AllOperations(ms[..|ms| - 1]) + ms[|ms| - 1].operations
  }

  ghost predicate Collects(ms: seq<Module>, l: Lowered) {
    && Routed(l.guard, ms)
    && l.startup == Tagged(ms, StartupHooks) && l.shutdown == Tagged(ms, ShutdownHooks)
    && l.operations == AllOperations(ms)
    && l.subscriptions == Tagged(ms, SubscriptionsOf) && l.bindings == Tagged(ms, BindingsOf)
  }

  lemma {:induction false} TaggedAppend<T(!new)>(ms: seq<Module>, m: Module, items: Module -> seq<T>)
    ensures Tagged(ms + [m], items) == Tagged(ms, items) + Tag(m.id, items(m))
  {
    assert (ms + [m])[..|ms|] == ms;
  }

  lemma CollectsStep(ms: seq<Module>, l: Lowered, m: Module, guard: CompositeGuard,
                     startup: seq<(string, Hook)>, shutdown: seq<(string, Hook)>)
    requires Collects(ms, l) && Apart(ms, m) && GuardAdded(l.guard, m, guard)
    requires startup == Tag(m.id, StartupHooks(m)) && shutdown == Tag(m.id, ShutdownHooks(m))
    ensures Collects(ms + [m], Lowered(guard, l.startup + startup, l.shutdown + shutdown, l.operations + m.operations,
                                       l.subscriptions + Tag(m.id, m.subscriptions), l.bindings + Tag(m.id, m.bindings)))
  {
    RoutedStep(l.guard, ms, m, guard);
    TaggedAppend(ms, m, StartupHooks);
    TaggedAppend(ms, m, ShutdownHooks);
    TaggedAppend(ms, m, SubscriptionsOf);
    TaggedAppend(ms, m, BindingsOf);
    assert (ms + [m])[..|ms|] == ms;
  }

  // Every operation of every module is registered, behind validation.
  ghost predicate Registers(c: Contract, ms: seq<Module>, descriptors: map<string, Descriptor>, handlers: map<string, Handler>) {
    && handlers.Keys == descriptors.Keys
    && Owned(descriptors, ms, DescriptorItems)
    && forall m :: m in ms ==> Serves(c, m, handlers)
  }

  lemma RegistersStep(c: Contract, ms: seq<Module>, m: Module, s: Stage, s': Stage)
    requires Registers(c, ms, s.descriptors, s.handlers) && s'.handlers.Keys == s'.descriptors.Keys
    requires Filled(s.descriptors, DescriptorItems(m), s'.descriptors) && Serves(c, m, s'.handlers) && Kept(s.handlers, s'.handlers)
    ensures Registers(c, ms + [m], s'.descriptors, s'.handlers)
  {
    OwnedExtends(s.descriptors, ms, DescriptorItems, m, s'.descriptors);
    forall a | a in ms + [m] ensures Serves(c, a, s'.handlers) {
      if a in ms {
        forall d | d in a.operations ensures ServedAs(c, a, d, s'.handlers) { assert ServedAs(c, a, d, s.handlers); }
      }
    }
  }

  // Operation names are distinct within and across modules.
  ghost predicate NamesApart(ms: seq<Module>) {
    && (forall m :: m in ms ==> KeysDistinct(NameOf, m.operations))
    && (forall k :: 0 <= k < |ms| ==> Apart(ms[..k], ms[k]))
  }

  // What the modules' operations need for lowering to go through.
  ghost predicate Lowerable(ms: seq<Module>) {
    && NamesApart(ms)
    && (forall m, d :: m in ms && d in m.operations ==> ValidDescriptor(d) && d.name in m.handlers)
  }

  lemma LowerableFresh(ms: seq<Module>, k: nat, descriptors: map<string, Descriptor>)
    requires k < |ms| && Owned(descriptors, ms[..k], DescriptorItems) && Lowerable(ms)
    ensures Fresh(descriptors, ms[k]) && Apart(ms[..k], ms[k])
  {
    var m := ms[k];
    forall d | d in m.operations ensures d.name in descriptors <==> exists a, e :: a in ms[..k] && e in a.operations && e.name == d.name {
      NameTaken(ms[..k], descriptors, d.name);
    }
  }

  lemma NameTaken(ms: seq<Module>, descriptors: map<string, Descriptor>, n: string)
    requires Owned(descriptors, ms, DescriptorItems)
    ensures n in descriptors <==> exists a, e :: a in ms && e in a.operations && e.name == n
  {
    if n in descriptors {
      assert Holds(descriptors, n, descriptors[n]);
      var a :| a in ms && (n, descriptors[n]) in DescriptorItems(a);
      assert descriptors[n] in a.operations && descriptors[n].name == n;
    }
    if exists a, e :: a in ms && e in a.operations && e.name == n {
      var a, e :| a in ms && e in a.operations && e.name == n;
      var j :| 0 <= j < |a.operations| && a.operations[j] == e;
      assert DescriptorItems(a)[j] == (n, e);
      assert Filed(ms, DescriptorItems, n, e);
      assert Holds(descriptors, n, e);
    }
  }

  // One module into the runtime under construction. The error of `LowerOperations` is
  // unreachable here.
  method LowerModule(c: Contract, m: Module, l: Lowered, builder: SyncCore.CoreBuilder, ghost ms: seq<Module>)
    returns (r: Lowered)
    requires builder.Valid() && Registers(c, ms, builder.descriptors, builder.handlers) && Collects(ms, l)
    requires Fresh(builder.descriptors, m) && Apart(ms, m)
    modifies builder`descriptors, builder`handlers
    ensures builder.Valid() && Registers(c, ms + [m], builder.descriptors, builder.handlers) && Collects(ms + [m], r)
  {
    ghost var s := Stage(builder.descriptors, builder.handlers);
    var lowered := LowerOperations(c, m, builder);
    if lowered.Err? { assert false; }
    RegistersStep(c, ms, m, s, Stage(builder.descriptors, builder.handlers));
    var guard := l.guard;
    if m.guard.Some? {
      guard := AddGuard(guard, m.operations, m.guard.value);
    }
    var startup, shutdown := SplitHooks(m.id, m.hooks);
    CollectsStep(ms, l, m, guard, startup, shutdown);
    r := Lowered(guard, l.startup + startup, l.shutdown + shutdown, l.operations + m.operations,
                 l.subscriptions + Tag(m.id, m.subscriptions), l.bindings + Tag(m.id, m.bindings));
  }

  // All modules into one new runtime.
  method LowerModules(c: Contract, ms: seq<Module>) returns (r: Lowered, builder: SyncCore.CoreBuilder)
    requires Lowerable(ms)
    ensures fresh(builder) && builder.Valid()
    ensures builder.guard.None? && builder.receiptSink.None? && builder.statusSink.None? && builder.backend.None?
    ensures builder.hash == SyncCore.NoHash
    ensures Registers(c, ms, builder.descriptors, builder.handlers) && Collects(ms, r)
  {
    builder := new SyncCore.CoreBuilder();
    r := Lowered(CompositeGuard(map[], []), [], [], [], [], []);
    for k := 0 to |ms|
      modifies builder`descriptors, builder`handlers
      invariant builder.Valid() && Registers(c, ms[..k], builder.descriptors, builder.handlers) && Collects(ms[..k], r)
    {
      LowerableFresh(ms, k, builder.descriptors);
      assert ms[..k + 1] == ms[..k] + [ms[k]];
      r := LowerModule(c, ms[k], r, builder, ms[..k]);
    }
    assert ms[..|ms|] == ms;
  }

  // The payload schema each event kind is bound to.
  method BoundKinds(bindings: seq<(string, Binding)>) returns (bound: map<Kind, string>)
    requires KeysDistinct(BoundKind, bindings)
    ensures forall k, reference :: Holds(bound, k, reference) <==> exists p :: p in bindings && p.1 == Binding(k, reference)
  {
    bound := map[];
    for i := 0 to |bindings|
      invariant forall k, reference :: Holds(bound, k, reference) <==>
                  exists j :: 0 <= j < i && bindings[j].1 == Binding(k, reference)
    {
      var b := bindings[i].1;
      assert forall j :: 0 <= j < i ==> BoundKind(bindings[j]) != BoundKind(bindings[i]);
      bound := bound[b.kind := b.payloadRef];
    }
  }

  function BoundKind(p: (string, Binding)): Kind { p.1.kind }
}
