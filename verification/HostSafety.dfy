/**
 What every run of a built host guarantees.
 */
module HostSafety {
  import opened Sorting
  import opened Evidence
  import opened EffectRow
  import opened Dispatch
  import opened DispatchSafety
  import opened HostModule
  import opened Composition
  import opened Mounting
  import opened Interface
  import opened Lowering
  import opened Host
  import Schema

  // The runtime of a host as `HostBuilder::build` returns it.
  ghost predicate Built(env: Setting, ms: seq<Module>, h: Host) {
    Mounted(env.encode, ms) && AllDeclared(ms) && IsRuntime(env, ms, h)
  }

  // ----- Appends -----

  ghost predicate Gated(core: Core, w: World) {
    forall call :: call in w.effects ==> core.backend.Some? && core.backend.value.gate(call.effect)
  }

  lemma ObservedGated(core: Core, w: World, w': World, ctx: Ctx)
    requires Gated(core, w) && Observing(core, w, w', ctx)
    ensures Gated(core, w')
  {
    assert w'.effects == w.effects + NewCalls(w, w');
  }

  lemma CheckoutGated(core: Core, w: World, name: string, input: Bytes)
    requires Wired(core) && Gated(core, w)
    ensures Gated(core, Checkout(core, w, name, input).0)
  {
    if name in core.descriptors {
      var t := CheckoutTurn(core, w, name, input);
      ObservedGated(core, w, Checkout(core, w, name, input).0, t.ctx);
    }
  }

  lemma {:induction false} RunGated(core: Core, requests: seq<Request>)
    requires Wired(core)
    ensures Gated(core, Serve(core, QUIET, requests).0)
  {
    if requests != [] {
      var n := |requests| - 1;
      RunGated(core, requests[..n]);
      CheckoutGated(core, Serve(core, QUIET, requests[..n]).0, requests[n].0, requests[n].1);
    }
  }

  // The kind is bound once, to an event-payload schema that accepts the payload.
  ghost predicate Lawful(c: Contract, ms: seq<Module>, kind: Kind, payload: Bytes) {
    exists reference, s ::
      && Binds(ms, kind, reference) && (forall other :: Binds(ms, kind, other) ==> other == reference)
      && ResolvesTo(c, ms, reference, Schema.EventPayload, s)
      && c.decodes(payload) && forall g :: g in s.golden ==> c.decodes(g.bytes)
  }

  lemma AdmissibleIsLawful(env: Setting, ms: seq<Module>, h: Host, bound: map<Kind, string>, kind: Kind, payload: Bytes)
    requires Built(env, ms, h) && IsBound(ms, bound) && Admissible(ContractOf(env, h), bound, AppendEvent(kind, payload))
    ensures Lawful(ContractOf(env, h), ms, kind, payload)
  {
    var c, reference := ContractOf(env, h), bound[kind];
    assert Holds(bound, kind, reference);
    var m :| m in ms && Binding(kind, reference) in m.bindings;
    assert Binding(kind, reference) in BindingsOf(m);
    StaticIsDynamic(env, ms, h, reference, Schema.EventPayload);
    var s :| ResolvesTo(c, ms, reference, Schema.EventPayload, s) && AcceptsExactly(c, reference, Schema.EventPayload, s);
    forall other | Binds(ms, kind, other) ensures other == reference { assert Holds(bound, kind, other); }
    assert Accepts(c, reference, Schema.EventPayload, payload);
  }

  /** Over every run of a built host, each event that reaches the inner backend has a kind
      bound by one binding, and a payload its one event-payload schema accepts. */
  lemma {:induction false} AppendsAreLawful(env: Setting, ms: seq<Module>, h: Host, requests: seq<Request>, call: EffectCall)
    requires Built(env, ms, h) && call in Serve(h.core, QUIET, requests).0.effects && call.effect.AppendEvent?
    ensures env.backend.Some? && Lawful(ContractOf(env, h), ms, call.effect.kind, call.effect.payload)
  {
    RunGated(h.core, requests);
    var c := ContractOf(env, h);
    assert h.core.backend.Some?;
    var bound :| IsBound(ms, bound) && h.core.backend == Some(ValidatingBackend(c, bound, env.backend.value));
    assert Admissible(c, bound, call.effect);
    AdmissibleIsLawful(env, ms, h, bound, call.effect.kind, call.effect.payload);
  }

  // Lawful appends are admissible: nothing is refused that should pass.
  lemma LawfulIsAdmissible(env: Setting, ms: seq<Module>, h: Host, bound: map<Kind, string>, kind: Kind, payload: Bytes)
    requires Built(env, ms, h) && IsBound(ms, bound) && Lawful(ContractOf(env, h), ms, kind, payload)
    ensures Admissible(ContractOf(env, h), bound, AppendEvent(kind, payload))
  {
    var c := ContractOf(env, h);
    var reference, s :| Binds(ms, kind, reference) && ResolvesTo(c, ms, reference, Schema.EventPayload, s)
      && c.decodes(payload) && forall g :: g in s.golden ==> c.decodes(g.bytes);
    assert Holds(bound, kind, reference);
    StaticIsDynamic(env, ms, h, reference, Schema.EventPayload);
    var u :| ResolvesTo(c, ms, reference, Schema.EventPayload, u) && AcceptsExactly(c, reference, Schema.EventPayload, u);
    assert Accepts(c, reference, Schema.EventPayload, payload);
  }

  // What the host lets through to the inner backend.
  ghost predicate LetsThrough(env: Setting, ms: seq<Module>, h: Host, e: Effect) {
    e.AppendEvent? ==> Lawful(ContractOf(env, h), ms, e.kind, e.payload)
  }

  /** A built host puts every lawful append and every other effect to the inner backend,
      and nothing else, and passes on its answer. */
  lemma BackendExact(env: Setting, ms: seq<Module>, h: Host, e: Effect)
    requires Built(env, ms, h)
    ensures env.backend.None? <==> h.core.backend.None?
    ensures env.backend.Some? ==>
            && (h.core.backend.value.gate(e) <==> LetsThrough(env, ms, h, e) && env.backend.value.gate(e))
            && h.core.backend.value.answer == env.backend.value.answer
  {
    if env.backend.Some? {
      var c := ContractOf(env, h);
      var bound: map<Kind, string> :| IsBound(ms, bound) && h.core.backend == Some(ValidatingBackend(c, bound, env.backend.value));
      if e.AppendEvent? {
        if Admissible(c, bound, e) { AdmissibleIsLawful(env, ms, h, bound, e.kind, e.payload); }
        if Lawful(c, ms, e.kind, e.payload) { LawfulIsAdmissible(env, ms, h, bound, e.kind, e.payload); }
      }
    }
  }

  // ----- Inputs and outputs -----

  // Checking a script's result changes neither what it does nor what it attaches.
  lemma {:induction false} CheckedExec(c: Contract, d: Descriptor, core: Core, w: World, ctx: Ctx, s: Script<HandlerResult>)
    ensures var (w', ctx', result) := Exec(core, w, ctx, s);
            Exec(core, w, ctx, Checked(c, d, s)) == (w', ctx', CheckOutput(c, d, result))
    decreases s
  {
    match s {
      case Return(_) =>
      case Perform(e, onOk, onErr) =>
        var (w1, ok) := PerformEffect(core, w, e);
        if ok { CheckedExec(c, d, core, w1, ctx.(row := Record(ctx.row, e)), onOk); } else { CheckedExec(c, d, core, w1, ctx, onErr); }
      case AttachSigned(key, value, next) => CheckedExec(c, d, core, w, ctx.(signed := ctx.signed[key := value]), next);
      case AttachLocal(key, value, next) => CheckedExec(c, d, core, w, ctx.(local := ctx.local[key := value]), next);
    }
  }

  // A validating handler succeeds only on accepted input, and then with accepted output.
  lemma {:induction false} ValidatingResult(c: Contract, d: Descriptor, inner: Handler, core: Core, w: World, ctx: Ctx, turn: nat, input: Bytes)
    ensures var result := Exec(core, w, ctx, ValidatingHandler(c, d, inner)(turn, input)).2;
            result.Ok? ==> Accepts(c, d.inputRef, Schema.OperationInput, input)
                           && Accepts(c, d.outputRef, Schema.OperationOutput, result.value)
  {
    var s := ValidatingHandler(c, d, inner)(turn, input);
    if Accepts(c, d.inputRef, Schema.OperationInput, input) {
      assert s == Checked(c, d, inner(turn, input));
      CheckedExec(c, d, core, w, ctx, inner(turn, input));
    } else {
      assert s == RefuseInput(d);
    }
  }

  // What validation makes of a handler's run: refused input never reaches it; accepted
  // input runs it as it is, and only an output the schema refuses is turned into a failure.
  ghost predicate Validates(c: Contract, d: Descriptor, input: Bytes, w: World, ctx: Ctx,
                            run: (World, Ctx, HandlerResult), validated: (World, Ctx, HandlerResult)) {
    if !Accepts(c, d.inputRef, Schema.OperationInput, input)
    then validated == (w, ctx, Err(InvalidInput("operation " + d.name + " input schema validation failed")))
    else if run.2.Ok? && !Accepts(c, d.outputRef, Schema.OperationOutput, run.2.value)
    then validated == (run.0, run.1, Err(HandlerFailure("operation " + d.name + " output schema validation failed")))
    else validated == run
  }

  /** Validation changes nothing but refused inputs and refused outputs. */
  lemma {:induction false} ValidationExact(c: Contract, d: Descriptor, inner: Handler, core: Core, w: World, ctx: Ctx, turn: nat, input: Bytes)
    ensures Validates(c, d, input, w, ctx, Exec(core, w, ctx, inner(turn, input)), Exec(core, w, ctx, ValidatingHandler(c, d, inner)(turn, input)))
  {
    var s := ValidatingHandler(c, d, inner)(turn, input);
    if Accepts(c, d.inputRef, Schema.OperationInput, input) {
      assert s == Checked(c, d, inner(turn, input));
      CheckedExec(c, d, core, w, ctx, inner(turn, input));
    } else {
      assert s == RefuseInput(d);
    }
  }

  // An operation of a built host is declared by some module and served behind validation.
  lemma OwnerOf(c: Contract, ms: seq<Module>, core: Core, name: string) returns (m: Module)
    requires Wired(core) && Registers(c, ms, core.descriptors, core.handlers) && name in core.descriptors
    ensures m in ms && core.descriptors[name] in m.operations && name in m.handlers
    ensures core.handlers[name] == ValidatingHandler(c, core.descriptors[name], m.handlers[name])
  {
    var d := core.descriptors[name];
    assert Holds(core.descriptors, name, d);
    assert Filed(ms, DescriptorItems, name, d);
    m :| m in ms && (name, d) in DescriptorItems(m);
    assert d in m.operations;
    assert ServedAs(c, m, d, core.handlers);
  }

  ghost predicate Validated(c: Contract, d: Descriptor, input: Bytes, output: Bytes) {
    Accepts(c, d.inputRef, Schema.OperationInput, input) && Accepts(c, d.outputRef, Schema.OperationOutput, output)
  }

  lemma DispatchedIsValidated(c: Contract, inner: Handler, core: Core, w: World, d: Descriptor, input: Bytes, ctx: Ctx)
    requires d.name in core.handlers && core.handlers[d.name] == ValidatingHandler(c, d, inner)
    ensures var r := Dispatched(core, w, d, input, ctx).1;
            r.Ok? ==> Validated(c, d, input, r.value.output)
  {
    var (w1, refused) := Flush(core, w, [WriteFact(StartedFact(d))]);
    if refused.None? {
      var w2 := w1.(runs := w1.runs + [d.name]);
      ValidatingResult(c, d, inner, core, w2, ctx, w.turns, input);
      var (w3, ctx3, result) := Exec(core, w2, ctx, core.handlers[d.name](w.turns, input));
      ConcludedOutput(core, w3, d, input, ctx3, result);
    }
  }

  lemma ConcludedOutput(core: Core, w: World, d: Descriptor, input: Bytes, ctx: Ctx, result: HandlerResult)
    ensures var r := Conclude(core, w, d, input, ctx, Judge(d, ctx, result)).1;
            r.Ok? ==> result == Ok(r.value.output)
  {
  }

  /** Whatever the world, a completed call had input its input schema accepts and output
      its output schema accepts. */
  lemma CompletedIsValidated(c: Contract, ms: seq<Module>, core: Core, w: World, name: string, input: Bytes)
    requires Wired(core) && Registers(c, ms, core.descriptors, core.handlers)
    ensures var r := Checkout(core, w, name, input).1;
            r.Ok? ==> name in core.descriptors && Validated(c, core.descriptors[name], input, r.value.output)
  {
    if name in core.descriptors {
      var d := core.descriptors[name];
      var m := OwnerOf(c, ms, core, name);
      var (w1, ctx, decision) := RunGuard(core, w.(turns := w.turns + 1), d, input);
      CheckoutSplits(core, w, name, input, w1, ctx, decision);
      DispatchedIsValidated(c, m.handlers[name], core, w1, d, input, ctx);
    }
  }

  // A checkout succeeds only by being admitted and dispatched.
  lemma CheckoutSplits(core: Core, w: World, name: string, input: Bytes, w1: World, ctx: Ctx, decision: Decision)
    requires name in core.descriptors
    requires (w1, ctx, decision) == RunGuard(core, w.(turns := w.turns + 1), core.descriptors[name], input)
    ensures var r := Checkout(core, w, name, input).1;
            r.Err? || r == Dispatched(core, w1, core.descriptors[name], input, ctx).1
  {
  }

  lemma ValidatedDecodes(c: Contract, d: Descriptor, input: Bytes, output: Bytes)
    requires Validated(c, d, input, output)
    ensures c.decodes(input) && c.decodes(output)
  {
  }

  // The answer to this request, if it was a success, was validated both ways.
  ghost predicate Sound(c: Contract, core: Core, request: Request, r: Result<CheckoutResult, RuntimeError>) {
    r.Ok? ==>
      && request.0 in core.descriptors
      && Validated(c, core.descriptors[request.0], request.1, r.value.output)
      && c.decodes(request.1) && c.decodes(r.value.output)
  }

  lemma {:induction false} ServeIsSound(c: Contract, ms: seq<Module>, core: Core, requests: seq<Request>, k: nat)
    requires Wired(core) && Registers(c, ms, core.descriptors, core.handlers) && k < |requests|
    ensures Sound(c, core, requests[k], Serve(core, QUIET, requests).1[k])
    decreases |requests|
  {
    var n := |requests| - 1;
    var (w, rs) := Serve(core, QUIET, requests[..n]);
    if k < n {
      ServeIsSound(c, ms, core, requests[..n], k);
    } else {
      CompletedIsValidated(c, ms, core, w, requests[n].0, requests[n].1);
      var r := Checkout(core, w, requests[n].0, requests[n].1).1;
      if r.Ok? { ValidatedDecodes(c, core.descriptors[requests[n].0], requests[n].1, r.value.output); }
      assert Sound(c, core, requests[n], r);
    }
  }

  /** So over every run of a built host: every success was validated both ways, against
      schemas that resolve. */
  lemma {:induction false} RunIsValidated(env: Setting, ms: seq<Module>, h: Host, requests: seq<Request>, k: nat)
    requires Built(env, ms, h) && k < |requests|
    ensures Sound(ContractOf(env, h), h.core, requests[k], Serve(h.core, QUIET, requests).1[k])
  {
    ServeIsSound(ContractOf(env, h), ms, h.core, requests, k);
  }

  // ----- Who gets to see a call -----

  // The cores differ at most in handlers and guard.
  ghost predicate SameOutside(a: Core, b: Core) { b == a.(handlers := b.handlers, guard := b.guard) }

  // Faced with this call, the two cores consult the same guard and the same handler.
  ghost predicate SameInside(a: Core, b: Core, d: Descriptor, input: Bytes) {
    && (d.name in a.handlers <==> d.name in b.handlers)
    && (d.name in a.handlers ==> forall turn :: a.handlers[d.name](turn, input) == b.handlers[d.name](turn, input))
    && forall turn :: Judgement(a.guard, turn, d, input) == Judgement(b.guard, turn, d, input)
  }

  lemma {:induction false} ExecSame<R>(a: Core, b: Core, w: World, ctx: Ctx, s: Script<R>)
    requires SameOutside(a, b)
    ensures Exec(a, w, ctx, s) == Exec(b, w, ctx, s)
    decreases s
  {
    match s {
      case Return(_) =>
      case Perform(e, onOk, onErr) =>
        var (w1, ok) := PerformEffect(a, w, e);
        if ok { ExecSame(a, b, w1, ctx.(row := Record(ctx.row, e)), onOk); } else { ExecSame(a, b, w1, ctx, onErr); }
      case AttachSigned(key, value, next) => ExecSame(a, b, w, ctx.(signed := ctx.signed[key := value]), next);
      case AttachLocal(key, value, next) => ExecSame(a, b, w, ctx.(local := ctx.local[key := value]), next);
    }
  }

  lemma {:induction false} FlushSame(a: Core, b: Core, w: World, writes: seq<Write>)
    requires SameOutside(a, b)
    ensures Flush(a, w, writes) == Flush(b, w, writes)
    decreases |writes|
  {
    if writes != [] {
      var (w', refusal) := Offer(a, w, writes[0]);
      if refusal.None? { FlushSame(a, b, w', writes[1..]); }
    }
  }

  lemma ConcludeSame(a: Core, b: Core, w: World, d: Descriptor, input: Bytes, ctx: Ctx, v: Verdict)
    requires SameOutside(a, b)
    ensures Conclude(a, w, d, input, ctx, v) == Conclude(b, w, d, input, ctx, v)
  {
    FlushSame(a, b, w, VerdictWrites(a, d, input, ctx, v));
  }

  lemma DispatchedSame(a: Core, b: Core, w: World, d: Descriptor, input: Bytes, ctx: Ctx)
    requires SameOutside(a, b) && SameInside(a, b, d, input)
    ensures Dispatched(a, w, d, input, ctx) == Dispatched(b, w, d, input, ctx)
  {
    FlushSame(a, b, w, [WriteFact(StartedFact(d))]);
    var (w1, refused) := Flush(a, w, [WriteFact(StartedFact(d))]);
    if refused.None? {
      if d.name in a.handlers {
        var w2, s := w1.(runs := w1.runs + [d.name]), a.handlers[d.name](w.turns, input);
        ExecSame(a, b, w2, ctx, s);
        var (w3, ctx3, result) := Exec(a, w2, ctx, s);
        ConcludeSame(a, b, w3, d, input, ctx3, Judge(d, ctx3, result));
      } else {
        FlushSame(a, b, w1, [WriteFact(MissingFact(a, d, input))]);
      }
    }
  }

  lemma CheckoutSame(a: Core, b: Core, w: World, name: string, input: Bytes)
    requires SameOutside(a, b) && (name in a.descriptors ==> SameInside(a, b, a.descriptors[name], input))
    ensures Checkout(a, w, name, input) == Checkout(b, w, name, input)
  {
    if name in a.descriptors {
      var d, w0 := a.descriptors[name], w.(turns := w.turns + 1);
      var s := Judgement(a.guard, w0.turns, d, input);
      ExecSame(a, b, w0, FRESH, s);
      assert s == Judgement(b.guard, w0.turns, d, input);
      assert RunGuard(a, w0, d, input) == Exec(a, w0, FRESH, s);
      assert RunGuard(b, w0, d, input) == Exec(b, w0, FRESH, s);
      var (w1, ctx, decision) := Exec(a, w0, FRESH, s);
      if decision.Deny? {
        ConcludeSame(a, b, w1, d, input, ctx, Barred(decision.code, decision.message));
      } else {
        DispatchedSame(a, b, w1, d, input, ctx);
      }
    }
  }

  ghost predicate SameServed(a: Core, b: Core, request: Request) {
    request.0 in a.descriptors ==> SameInside(a, b, a.descriptors[request.0], request.1)
  }

  lemma {:induction false} ServeSame(a: Core, b: Core, requests: seq<Request>)
    requires SameOutside(a, b) && forall k :: 0 <= k < |requests| ==> SameServed(a, b, requests[k])
    ensures Serve(a, QUIET, requests) == Serve(b, QUIET, requests)
  {
    if requests != [] {
      var n := |requests| - 1;
      ServeSame(a, b, requests[..n]);
      assert SameServed(a, b, requests[n]);
      CheckoutSame(a, b, Serve(a, QUIET, requests[..n]).0, requests[n].0, requests[n].1);
    }
  }

  // The host with the user handler of one operation replaced.
  function WithHandler(c: Contract, core: Core, name: string, other: Handler): Core
    requires name in core.descriptors
  {
    core.(handlers := core.handlers[name := ValidatingHandler(c, core.descriptors[name], other)])
  }

  // The handlers do the same with every input the operation's schema accepts.
  ghost predicate AgreeOnAccepted(c: Contract, d: Descriptor, inner: Handler, other: Handler) {
    forall turn, input :: Accepts(c, d.inputRef, Schema.OperationInput, input) ==> other(turn, input) == inner(turn, input)
  }

  lemma ValidatingSame(c: Contract, d: Descriptor, inner: Handler, other: Handler, turn: nat, input: Bytes)
    requires AgreeOnAccepted(c, d, inner, other)
    ensures ValidatingHandler(c, d, inner)(turn, input) == ValidatingHandler(c, d, other)(turn, input)
  {
  }

  // No request can tell such handlers apart.
  lemma ReplacedIsSame(c: Contract, core: Core, name: string, inner: Handler, other: Handler, request: Request)
    requires Wired(core) && name in core.descriptors
    requires core.handlers[name] == ValidatingHandler(c, core.descriptors[name], inner)
    requires AgreeOnAccepted(c, core.descriptors[name], inner, other)
    ensures SameServed(core, WithHandler(c, core, name, other), request)
  {
    var d, input := core.descriptors[name], request.1;
    if request.0 == name {
      forall turn ensures ValidatingHandler(c, d, inner)(turn, input) == ValidatingHandler(c, d, other)(turn, input) {
        ValidatingSame(c, d, inner, other, turn, input);
      }
    }
  }

  // The module `m` declares the operation and brings its handler.
  ghost predicate Owns(m: Module, core: Core, name: string) {
    name in core.descriptors && core.descriptors[name] in m.operations && name in m.handlers
  }

  /** User handlers see only accepted input: over every run, what a module's handler would
      do with input its operation's schema refuses makes no difference to any record,
      effect or answer. */
  lemma {:induction false} InvalidInputIsHidden(
    env: Setting, ms: seq<Module>, h: Host, m: Module, name: string, other: Handler, requests: seq<Request>)
    requires Built(env, ms, h) && m in ms && Owns(m, h.core, name)
    requires AgreeOnAccepted(ContractOf(env, h), h.core.descriptors[name], m.handlers[name], other)
    ensures Serve(h.core, QUIET, requests) == Serve(WithHandler(ContractOf(env, h), h.core, name, other), QUIET, requests)
  {
    var c, core := ContractOf(env, h), h.core;
    assert ServedAs(c, m, core.descriptors[name], core.handlers);
    forall k | 0 <= k < |requests| ensures SameServed(core, WithHandler(c, core, name, other), requests[k]) {
      ReplacedIsSame(c, core, name, m.handlers[name], other, requests[k]);
    }
    ServeSame(core, WithHandler(c, core, name, other), requests);
  }

  // In any state, a call goes exactly as with its own module's guard alone installed.
  lemma OwnGuardDecides(ms: seq<Module>, core: Core, m: Module, w: World, name: string, input: Bytes)
    requires JudgedByOwn(ms, core.guard) && m in ms && name in core.descriptors && core.descriptors[name] in m.operations
    ensures Checkout(core, w, name, input) == Checkout(core.(guard := m.guard), w, name, input)
  {
    CheckoutSame(core, core.(guard := m.guard), w, name, input);
  }

  /** Each operation is judged only by its own module's guard: at every point of every
      run, whatever modules the earlier calls were for, a call goes exactly as with its own
      module's guard alone installed. */
  lemma {:induction false} GuardIsolation(env: Setting, ms: seq<Module>, h: Host, requests: seq<Request>, k: nat, m: Module)
    requires Built(env, ms, h) && k < |requests|
    requires m in ms && requests[k].0 in h.core.descriptors && h.core.descriptors[requests[k].0] in m.operations
    ensures var w := Serve(h.core, QUIET, requests[..k]).0;
            Checkout(h.core, w, requests[k].0, requests[k].1) == Checkout(h.core.(guard := m.guard), w, requests[k].0, requests[k].1)
  {
    OwnGuardDecides(ms, h.core, m, Serve(h.core, QUIET, requests[..k]).0, requests[k].0, requests[k].1);
  }

  /** Every operation of a built host has such a module, with a handler for it. */
  lemma EveryOperationOwned(env: Setting, ms: seq<Module>, h: Host, name: string) returns (m: Module)
    requires Built(env, ms, h) && name in h.core.descriptors
    ensures m in ms && Owns(m, h.core, name)
  {
    m := OwnerOf(ContractOf(env, h), ms, h.core, name);
  }

  // ----- Every reference resolves -----

  // At run time the reference resolves to one intact schema, which then accepts exactly
  // what decodes, given that its golden vectors do.
  ghost predicate Resolvable(c: Contract, ms: seq<Module>, reference: string, role: Schema.Role) {
    exists s :: ResolvesTo(c, ms, reference, role, s) && AcceptsExactly(c, reference, role, s)
  }

  lemma DeclaredResolves(env: Setting, ms: seq<Module>, h: Host, reference: string, role: Schema.Role)
    requires Mounted(env.encode, ms) && IsRuntime(env, ms, h) && OneDeclared(ms, reference, role)
    ensures Resolvable(ContractOf(env, h), ms, reference, role)
  {
    StaticIsDynamic(env, ms, h, reference, role);
  }

  lemma OperationIsDeclared(env: Setting, ms: seq<Module>, h: Host, name: string)
    requires Built(env, ms, h) && name in h.core.descriptors
    ensures OperationDeclared(ms, h.core.descriptors[name])
  {
    var m := EveryOperationOwned(env, ms, h, name);
    assert h.core.descriptors[name] in OperationsOf(m);
  }

  /** In a built host every reference of every operation resolves. */
  lemma OperationsResolve(env: Setting, ms: seq<Module>, h: Host, name: string)
    requires Built(env, ms, h) && name in h.core.descriptors
    ensures Resolvable(ContractOf(env, h), ms, h.core.descriptors[name].inputRef, Schema.OperationInput)
    ensures Resolvable(ContractOf(env, h), ms, h.core.descriptors[name].outputRef, Schema.OperationOutput)
    ensures Resolvable(ContractOf(env, h), ms, h.core.descriptors[name].receiptKind, Schema.ReceiptPayload)
  {
    OperationIsDeclared(env, ms, h, name);
    ReferencesResolve(env, ms, h, h.core.descriptors[name]);
  }

  lemma ReferencesResolve(env: Setting, ms: seq<Module>, h: Host, d: Descriptor)
    requires Mounted(env.encode, ms) && IsRuntime(env, ms, h) && OperationDeclared(ms, d)
    ensures Resolvable(ContractOf(env, h), ms, d.inputRef, Schema.OperationInput)
    ensures Resolvable(ContractOf(env, h), ms, d.outputRef, Schema.OperationOutput)
    ensures Resolvable(ContractOf(env, h), ms, d.receiptKind, Schema.ReceiptPayload)
  {
    DeclaredResolves(env, ms, h, d.inputRef, Schema.OperationInput);
    DeclaredResolves(env, ms, h, d.outputRef, Schema.OperationOutput);
    DeclaredResolves(env, ms, h, d.receiptKind, Schema.ReceiptPayload);
  }

  /** So does every bound event kind's payload schema, and every subscription's. */
  lemma ExportsResolve(env: Setting, ms: seq<Module>, h: Host, m: Module)
    requires Built(env, ms, h) && m in ms
    ensures forall b :: b in m.bindings ==> Resolvable(ContractOf(env, h), ms, b.payloadRef, Schema.EventPayload)
    ensures forall s :: s in m.subscriptions ==> Resolvable(ContractOf(env, h), ms, s.payloadRef, RequiredRole(s.source))
  {
    forall b | b in m.bindings ensures Resolvable(ContractOf(env, h), ms, b.payloadRef, Schema.EventPayload) {
      assert b in BindingsOf(m);
      DeclaredResolves(env, ms, h, b.payloadRef, Schema.EventPayload);
    }
    forall s | s in m.subscriptions ensures Resolvable(ContractOf(env, h), ms, s.payloadRef, RequiredRole(s.source)) {
      assert s in SubscriptionsOf(m);
      DeclaredResolves(env, ms, h, s.payloadRef, RequiredRole(s.source));
    }
  }

  // ----- Mount order and behaviour -----

  // Modules that declare one schema key declare one descriptor, golden vectors included.
  ghost predicate SameDeclarations(ms: seq<Module>) {
    forall a, b, s, u :: a in ms && b in ms && s in a.schemas && u in b.schemas && KeyOf(s) == KeyOf(u) ==> s == u
  }

  ghost predicate Declared(ms: seq<Module>, s: Schema.Descriptor) { exists m :: m in ms && s in m.schemas }

  lemma ComposedDescriptors(ms: seq<Module>, es: seq<Entry>)
    requires IsComposition(ms, es) && SameDeclarations(ms)
    ensures KeySorted(KeyLe, KeyOf, Map(DescriptorOf, es))
    ensures forall s :: s in Map(DescriptorOf, es) <==> Declared(ms, s)
  {
    var ds := Map(DescriptorOf, es);
    MapMembers(DescriptorOf, es);
    forall i, j | 0 <= i < j < |ds| ensures KeyLe(KeyOf(ds[i]), KeyOf(ds[j])) && KeyOf(ds[i]) != KeyOf(ds[j]) {
      assert EntryKey(es[i]) != EntryKey(es[j]) && KeyLe(EntryKey(es[i]), EntryKey(es[j]));
    }
    forall s ensures s in ds <==> Declared(ms, s) {
      if s in ds { ComposedIsDeclared(ms, es, s); }
      if Declared(ms, s) { DeclaredIsComposed(ms, es, s); }
    }
  }

  lemma ComposedIsDeclared(ms: seq<Module>, es: seq<Entry>, s: Schema.Descriptor)
    requires IsComposition(ms, es) && exists e :: e in es && DescriptorOf(e) == s
    ensures Declared(ms, s)
  {
    var e :| e in es && DescriptorOf(e) == s;
    var i := EntryIsFirst(ms, EntryKey(e));
    assert ms[i] in ms && s in ms[i].schemas;
  }

  lemma DeclaredIsComposed(ms: seq<Module>, es: seq<Entry>, s: Schema.Descriptor)
    requires IsComposition(ms, es) && SameDeclarations(ms) && Declared(ms, s)
    ensures exists e :: e in es && DescriptorOf(e) == s
  {
    var m :| m in ms && s in m.schemas;
    var k := KeyOf(s);
    var i := EntryIsFirst(ms, k);
    assert Carries(m, k);
    var j :| 0 <= j < |ms| && ms[j] == m;
    assert Carries(ms[j], k);
    assert ms[i] in ms;
    var e := EntryFor(ms, k).value;
    assert EntryKey(e) == k && e in es && DescriptorOf(e) == s;
  }

  lemma RegistryUnique(ds: seq<Schema.Descriptor>, a: Schema.Registry, b: Schema.Registry)
    requires Schema.IsRegistry(ds, a) && Schema.IsRegistry(ds, b)
    ensures a == b
  {
    forall key: (string, Schema.Role) ensures (key in a <==> key in b) && (key in a ==> a[key] == b[key]) {
      var (id, role) := key;
      assert key == (id, role);
      assert Schema.Candidates(ds, id, role) == [] ==> (id, role) !in a && (id, role) !in b;
    }
  }

  lemma RegistriesAgree(env: Setting, ms: seq<Module>, ns: seq<Module>, g: Host, h: Host)
    requires multiset(ms) == multiset(ns) && SameDeclarations(ms) && IsRuntime(env, ms, g) && IsRuntime(env, ns, h)
    ensures g.registry == h.registry
  {
    SameMembers(ms, ns);
    KeyTotalOrder();
    ComposedDescriptors(ms, g.composition);
    ComposedDescriptors(ns, h.composition);
    var ds, es := Map(DescriptorOf, g.composition), Map(DescriptorOf, h.composition);
    forall s ensures s in ds <==> s in es { assert Declared(ms, s) <==> Declared(ns, s); }
    KeySortedUnique(KeyLe, KeyOf, ds, es);
    RegistryUnique(ds, g.registry, h.registry);
  }

  lemma OwnedUnique<K(!new), V(!new)>(t: map<K, V>, u: map<K, V>, ms: seq<Module>, ns: seq<Module>, items: Module -> seq<(K, V)>)
    requires Owned(t, ms, items) && Owned(u, ns, items) && forall m :: m in ms <==> m in ns
    ensures t == u
  {
    forall k, v ensures Holds(t, k, v) <==> Holds(u, k, v) {
      assert Filed(ms, items, k, v) <==> Filed(ns, items, k, v);
    }
    HoldsSame(t, u);
  }

  lemma HoldsSame<K(!new), V(!new)>(t: map<K, V>, u: map<K, V>)
    requires forall k, v :: Holds(t, k, v) <==> Holds(u, k, v)
    ensures t == u
  {
    forall k | k in t ensures k in u && u[k] == t[k] { assert Holds(t, k, t[k]); }
    forall k | k in u ensures k in t { assert Holds(u, k, u[k]); }
  }

  lemma BackendsAgree(env: Setting, ms: seq<Module>, ns: seq<Module>, c: Contract, a: Option<Backend>, b: Option<Backend>)
    requires IsBackend(env, ms, c, a) && IsBackend(env, ns, c, b) && forall m :: m in ms <==> m in ns
    ensures a == b
  {
    if env.backend.Some? {
      var p: map<Kind, string> :| IsBound(ms, p) && a == Some(ValidatingBackend(c, p, env.backend.value));
      var q: map<Kind, string> :| IsBound(ns, q) && b == Some(ValidatingBackend(c, q, env.backend.value));
      forall k: Kind, reference ensures Holds(p, k, reference) <==> Holds(q, k, reference) {
        assert Binds(ms, k, reference) <==> Binds(ns, k, reference);
      }
      HoldsSame(p, q);
    }
  }

  lemma CoresAgree(env: Setting, ms: seq<Module>, ns: seq<Module>, c: Contract, a: Core, b: Core, request: Request)
    requires IsCore(env, ms, c, a) && IsCore(env, ns, c, b) && forall m :: m in ms <==> m in ns
    ensures SameOutside(a, b) && SameServed(a, b, request)
  {
    OwnedUnique(a.descriptors, b.descriptors, ms, ns, DescriptorItems);
    BackendsAgree(env, ms, ns, c, a.backend, b.backend);
    var (name, input) := request;
    if name in a.descriptors {
      var m := OwnerOf(c, ms, a, name);
      var d := a.descriptors[name];
      assert Serves(c, m, b.handlers) && ServedAs(c, m, d, b.handlers);
      forall turn ensures Judgement(a.guard, turn, d, input) == Judgement(b.guard, turn, d, input) {
        assert Judgement(a.guard, turn, d, input) == Judgement(m.guard, turn, d, input);
      }
    }
  }

  /** Hosts built from the same modules in any two orders answer every run alike, record for
      record and effect for effect. */
  lemma {:induction false} MountOrderUnobservable(
    env: Setting, ms: seq<Module>, ns: seq<Module>, g: Host, h: Host, requests: seq<Request>)
    requires multiset(ms) == multiset(ns) && SameDeclarations(ms) && IsRuntime(env, ms, g) && IsRuntime(env, ns, h)
    ensures Serve(g.core, QUIET, requests) == Serve(h.core, QUIET, requests)
  {
    SameMembers(ms, ns);
    RegistriesAgree(env, ms, ns, g, h);
    var c := ContractOf(env, g);
    CoresAgree(env, ms, ns, c, g.core, h.core, ("", []));
    forall k | 0 <= k < |requests| ensures SameServed(g.core, h.core, requests[k]) {
      CoresAgree(env, ms, ns, c, g.core, h.core, requests[k]);
    }
    ServeSame(g.core, h.core, requests);
  }

  /** Mounted modules declare the same descriptors under the same key if no two lists of
      golden vectors of one schema share an encoding. */
  lemma NoCollisionNoDifference(encode: Schema.Encoder, ms: seq<Module>)
    requires Mounted(encode, ms)
    requires forall id, version, role, g, h :: encode(id, version, role, g) == encode(id, version, role, h) ==> g == h
    ensures SameDeclarations(ms)
  {
    MountableAgree(encode, ms);
    forall a, b, s, u | a in ms && b in ms && s in a.schemas && u in b.schemas && KeyOf(s) == KeyOf(u) ensures s == u {
      assert Agree(a, b) && Schema.VerifyEncoding(encode, s) && Schema.VerifyEncoding(encode, u);
      assert encode(s.id, s.version, s.role, s.golden) == encode(s.id, s.version, s.role, u.golden);
    }
  }
}
