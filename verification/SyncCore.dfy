/**
 The synchronous runtime and its builder, in the form the program gives them: a
 builder that fills descriptor and handler tables, and a runtime that dispatches one
 checkout at a time, stepping through guard, sinks, handler and backend.
 */
module SyncCore {
  import opened Evidence
  import opened EffectRow
  import opened Dispatch
  import opened DispatchSafety

  datatype BuildError =
    | InvalidOperation(name: string)
    | InvalidHandlerName(name: string)
    | DuplicateOperation(name: string)
    | DuplicateHandler(name: string)
    | MissingHandlerFor(name: string)
    | MissingDescriptorFor(name: string)

  // The default hash policy: receipts and facts carry no byte hashes.
  function NoHash(bytes: Bytes): Option<Hash> { None }

  // A name of one table that the other lacks.
  method FirstOutside(names: set<string>, table: set<string>) returns (missing: Option<string>)
    ensures missing.None? <==> names <= table
    ensures missing.Some? ==> missing.value in names && missing.value !in table
  {
    var rest := names;
    while rest != {}
      invariant rest <= names
      invariant names - rest <= table
    {
      var n :| n in rest;
      if n !in table { return Some(n); }
      rest := rest - {n};
    }
    missing := None;
  }

  class CoreBuilder {
    var descriptors: map<string, Descriptor>
    var handlers: map<string, Handler>
    var guard: Option<Guard>
    var receiptSink: Option<ReceiptSink>
    var statusSink: Option<FactSink>
    var hash: Bytes -> Option<Hash>
    var backend: Option<Backend>

    // Descriptors are filed under their own name and were validated on the way in.
    ghost predicate Valid()
      reads this`descriptors
    {
      forall n :: n in descriptors ==> descriptors[n].name == n && ValidDescriptor(descriptors[n])
    }

    constructor ()
      ensures Valid() && descriptors == map[] && handlers == map[]
      ensures guard.None? && receiptSink.None? && statusSink.None? && backend.None? && hash == NoHash
    {
      descriptors, handlers := map[], map[];
      guard, receiptSink, statusSink, backend := None, None, None, None;
      hash := NoHash;
    }

    method RegisterOperation(d: Descriptor) returns (r: Result<(), BuildError>)
      requires Valid()
      modifies this`descriptors
      ensures Valid()
      ensures r.Ok? <==> ValidDescriptor(d) && d.name !in old(descriptors)
      ensures descriptors == if r.Ok? then old(descriptors)[d.name := d] else old(descriptors)
    {
      if !ValidDescriptor(d) { return Err(InvalidOperation(d.name)); }
      if d.name in descriptors { return Err(DuplicateOperation(d.name)); }
      descriptors := descriptors[d.name := d];
      r := Ok(());
    }

    method RegisterHandler(name: string, handler: Handler) returns (r: Result<(), BuildError>)
      requires Valid()
      modifies this`handlers
      ensures Valid()
      ensures r.Ok? <==> ValidToken(name, MAX_OPERATION_NAME_BYTES) && name !in old(handlers)
      ensures handlers == if r.Ok? then old(handlers)[name := handler] else old(handlers)
    {
      if !ValidToken(name, MAX_OPERATION_NAME_BYTES) { return Err(InvalidHandlerName(name)); }
      if name in handlers { return Err(DuplicateHandler(name)); }
      handlers := handlers[name := handler];
      r := Ok(());
    }

    // `register` and `register_boxed`: both sides or neither.
    method Register(d: Descriptor, handler: Handler) returns (r: Result<(), BuildError>)
      requires Valid()
      modifies this`descriptors, this`handlers
      ensures Valid()
      ensures r.Ok? <==> ValidDescriptor(d) && d.name !in old(descriptors) && d.name !in old(handlers)
      ensures r.Ok? ==> descriptors == old(descriptors)[d.name := d] && handlers == old(handlers)[d.name := handler]
      ensures r.Err? ==> descriptors == old(descriptors) && handlers == old(handlers)
    {
      if !ValidDescriptor(d) { return Err(InvalidOperation(d.name)); }
      if d.name in descriptors { return Err(DuplicateOperation(d.name)); }
      if d.name in handlers { return Err(DuplicateHandler(d.name)); }
      descriptors := descriptors[d.name := d];
      handlers := handlers[d.name := handler];
      r := Ok(());
    }

    // Build succeeds iff the two tables name the same operations; what it builds is wired.
    method Build() returns (r: Result<Core, BuildError>)
      requires Valid()
      ensures r.Ok? <==> descriptors.Keys == handlers.Keys
      ensures r.Ok? ==> Wired(r.value)
                        && r.value == Core(descriptors, handlers, guard, receiptSink, statusSink, hash, backend)
      ensures r.Err? ==> match r.error
                         case MissingHandlerFor(n) => n in descriptors && n !in handlers
                         case MissingDescriptorFor(n) => descriptors.Keys <= handlers.Keys && n in handlers && n !in descriptors
                         case _ => false
    {
      var missing := FirstOutside(descriptors.Keys, handlers.Keys);
      if missing.Some? { return Err(MissingHandlerFor(missing.value)); }
      missing := FirstOutside(handlers.Keys, descriptors.Keys);
      if missing.Some? { return Err(MissingDescriptorFor(missing.value)); }
      assert descriptors.Keys == handlers.Keys;
      r := Ok(Core(descriptors, handlers, guard, receiptSink, statusSink, hash, backend));
    }
  }

  class Runtime {
    const core: Core
    var facts: seq<Attempt<Fact>>
    var receipts: seq<Attempt<Receipt>>
    var effects: seq<EffectCall>
    var runs: seq<string>
    var turns: nat

    ghost function State(): World
      reads this
    {
      World(facts, receipts, effects, runs, turns)
    }

    constructor (core: Core)
      ensures this.core == core && State() == QUIET
    {
      this.core := core;
      facts, receipts, effects, runs, turns := [], [], [], [], 0;
    }

    // A capability handle: perform the effect through the backend, if there is one.
    method PerformThroughBackend(e: Effect) returns (ok: bool)
      modifies this`effects
      ensures (State(), ok) == PerformEffect(core, old(State()), e)
    {
      if core.backend.None? { return false; }
      var backend := core.backend.value;
      if !backend.gate(e) { return false; }
      ok := backend.answer(effects, e);
      effects := effects + [EffectCall(e, ok)];
    }

    // A guard or handler at work on its context.
    method RunScript<R>(ctx0: Ctx, s: Script<R>) returns (ctx: Ctx, result: R)
      modifies this`effects
      ensures (State(), ctx, result) == Exec(core, old(State()), ctx0, s)
      decreases s
    {
      ctx := ctx0;
      match s {
        case Return(value) =>
          result := value;
        case Perform(e, onOk, onErr) =>
          var ok := PerformThroughBackend(e);
          if ok {
            ctx := ctx.(row := Record(ctx.row, e));
            ctx, result := RunScript(ctx, onOk);
          } else {
            ctx, result := RunScript(ctx, onErr);
          }
        case AttachSigned(key, value, next) =>
          ctx := ctx.(signed := ctx.signed[key := value]);
          ctx, result := RunScript(ctx, next);
        case AttachLocal(key, value, next) =>
          ctx := ctx.(local := ctx.local[key := value]);
          ctx, result := RunScript(ctx, next);
      }
    }

    method RecordStatus(fact: Fact, cause: Option<Cause>) returns (r: Result<(), RuntimeError>)
      modifies this`facts
      ensures var (w, refusal) := Offer(core, old(State()), WriteFact(fact));
              && State() == w
              && r == if refusal.Some? then Err(StatusSinkFault(fact.operation, refusal.value, cause)) else Ok(())
    {
      if core.statusSink.None? { return Ok(()); }
      var refusal := core.statusSink.value(facts, fact);
      facts := facts + [Attempt(fact, refusal)];
      r := if refusal.Some? then Err(StatusSinkFault(fact.operation, refusal.value, cause)) else Ok(());
    }

    method RecordReceipt(receipt: Receipt, cause: Option<Cause>) returns (r: Result<Option<Recorded>, RuntimeError>)
      modifies this`receipts
      ensures var (w, refusal) := Offer(core, old(State()), WriteReceipt(receipt));
              && State() == w
              && r == if refusal.Some? then Err(ReceiptSinkFault(receipt.operation, refusal.value, cause))
                      else Ok(RecordedBy(core, old(receipts), receipt))
    {
      if core.receiptSink.None? { return Ok(None); }
      var answer := core.receiptSink.value(receipts, receipt);
      receipts := receipts + [Attempt(receipt, if answer.Err? then Some(answer.error) else None)];
      r := if answer.Err? then Err(ReceiptSinkFault(receipt.operation, answer.error, cause)) else Ok(Some(answer.value));
    }

    // A denial: Denied fact, then Denied receipt, then the denial error.
    method RefuseCall(d: Descriptor, input: Bytes, ctx: Ctx, code: string, message: string)
      returns (r: Result<CheckoutResult, RuntimeError>)
      modifies this`facts, this`receipts
      ensures (State(), r) == Conclude(core, old(State()), d, input, ctx, Barred(code, message))
    {
      ghost var w, v := State(), Barred(code, message);
      FlushTwo(core, w, WriteFact(VerdictFact(core, d, input, v)), WriteReceipt(VerdictReceipt(core, d, input, ctx, v)));
      var status := RecordStatus(Fact(d.name, Denied, d.receiptKind, Some(code), Some(message), core.hash(input), None), None);
      if status.Err? { return Err(status.error); }
      FlushOne(core, State(), WriteReceipt(VerdictReceipt(core, d, input, ctx, v)));
      var receipt := RecordReceipt(
        Receipt(d.name, d.receiptKind, core.hash(input), None, DeniedOutcome(code, message), ctx.signed, ctx.local), None);
      if receipt.Err? { return Err(receipt.error); }
      r := Err(DeniedCall(d.name, code, message));
    }

    method FinishHandlerPhase(d: Descriptor, input: Bytes, result: HandlerResult, ctx: Ctx)
      returns (r: Result<CheckoutResult, RuntimeError>)
      modifies this`facts, this`receipts
      ensures (State(), r) == Conclude(core, old(State()), d, input, ctx, Judge(d, ctx, result))
    {
      var violation := FirstViolation(ctx.row, d.row);
      if violation.Some? {
        r := RefuseCall(d, input, ctx, "effect.violation", ViolationMessage(violation.value));
        return;
      }
      ghost var w, v := State(), Judge(d, ctx, result);
      if result.Err? {
        var cause := Cause(result.error.Class(), result.error.message);
        FlushTwo(core, w, WriteFact(VerdictFact(core, d, input, v)), WriteReceipt(VerdictReceipt(core, d, input, ctx, v)));
        var status := RecordStatus(
          Fact(d.name, Failed, d.receiptKind, Some(cause.code), Some(cause.message), core.hash(input), None), Some(cause));
        if status.Err? { return Err(status.error); }
        FlushOne(core, State(), WriteReceipt(VerdictReceipt(core, d, input, ctx, v)));
        var receipt := RecordReceipt(
          Receipt(d.name, d.receiptKind, core.hash(input), None, FailedOutcome(cause.code, cause.message), ctx.signed, ctx.local),
          Some(cause));
        if receipt.Err? { return Err(receipt.error); }
        return Err(HandlerFault(d.name, cause.code, cause.message));
      }
      var output := result.value;
      FlushTwo(core, w, WriteReceipt(VerdictReceipt(core, d, input, ctx, v)), WriteFact(VerdictFact(core, d, input, v)));
      var recorded := RecordReceipt(
        Receipt(d.name, d.receiptKind, core.hash(input), core.hash(output), CompletedOutcome, ctx.signed, ctx.local), None);
      if recorded.Err? { return Err(recorded.error); }
      FlushOne(core, State(), WriteFact(VerdictFact(core, d, input, v)));
      var status := RecordStatus(
        Fact(d.name, Completed, d.receiptKind, None, None, core.hash(input), core.hash(output)), None);
      if status.Err? { return Err(status.error); }
      r := Ok(CheckoutResult(d, output, recorded.value));
    }

    method StartAndRun(d: Descriptor, input: Bytes, ctx0: Ctx) returns (r: Result<CheckoutResult, RuntimeError>)
      modifies this
      ensures (State(), r) == Dispatched(core, old(State()), d, input, ctx0)
    {
      FlushOne(core, State(), WriteFact(StartedFact(d)));
      var started := RecordStatus(Fact(d.name, Started, d.receiptKind, None, None, None, None), None);
      if started.Err? { return Err(started.error); }
      if d.name !in core.handlers {
        FlushOne(core, State(), WriteFact(MissingFact(core, d, input)));
        var missing := RecordStatus(
          Fact(d.name, Failed, d.receiptKind, Some("missing_handler"),
               Some("operation descriptor has no registered handler"), core.hash(input), None), None);
        if missing.Err? { return Err(missing.error); }
        return Err(MissingHandler(d.name));
      }
      var handler := core.handlers[d.name];
      runs := runs + [d.name];
      var ctx, result := RunScript(ctx0, handler(turns, input));
      r := FinishHandlerPhase(d, input, result, ctx);
    }

    method Checkout(name: string, input: Bytes) returns (r: Result<CheckoutResult, RuntimeError>)
      modifies this
      ensures (State(), r) == Dispatch.Checkout(core, old(State()), name, input)
    {
      if name !in core.descriptors { return Err(UnknownOperation(name)); }
      var d := core.descriptors[name];
      turns := turns + 1;
      var ctx := FRESH;
      if core.guard.Some? {
        var guard := core.guard.value;
        var decision;
        ctx, decision := RunScript(ctx, guard(turns, d, input));
        if decision.Deny? {
          r := RefuseCall(d, input, ctx, decision.code, decision.message);
          return;
        }
      }
      r := StartAndRun(d, input, ctx);
    }
  }
}
