/**
 What a call leaves behind, read off its guard and handler alone: the branch each script
 took, the metadata it attached, and the content of every receipt, fact and error.
 */
module CallRecords {
  import opened Evidence
  import opened EffectRow
  import opened Dispatch
  import opened DispatchSafety

  // ----- The branch a script takes -----

  // One thing a script did with its context.
  datatype Event =
    | Did(effect: Effect, ok: bool)
    | Signed(key: string, value: Bytes)
    | Local(key: string, value: Bytes)

  // The events are a branch of the script, and the branch returns this.
  ghost predicate Along<R(!new)>(s: Script<R>, events: seq<Event>, result: R) {
    match s
    case Return(value) => events == [] && value == result
    case Perform(e, onOk, onErr) =>
      events != [] && events[0].Did? && events[0].effect == e && Along(if events[0].ok then onOk else onErr, events[1..], result)
    case AttachSigned(key, value, next) => events != [] && events[0] == Signed(key, value) && Along(next, events[1..], result)
    case AttachLocal(key, value, next) => events != [] && events[0] == Local(key, value) && Along(next, events[1..], result)
  }

  // The calls the events made of the backend, and that each went as the backend answered:
  // a call it never got to see failed.
  ghost predicate Answered(core: Core, history: seq<EffectCall>, events: seq<Event>, calls: seq<EffectCall>)
    decreases |events|
  {
    if events == [] then calls == []
    else if events[0].Did? then
      var e, ok := events[0].effect, events[0].ok;
      if core.backend.None? || !core.backend.value.gate(e) then !ok && Answered(core, history, events[1..], calls)
      else
        && ok == core.backend.value.answer(history, e)
        && calls != [] && calls[0] == EffectCall(e, ok) && Answered(core, history + [calls[0]], events[1..], calls[1..])
    else Answered(core, history, events[1..], calls)
  }

  // The last value attached under a key.
  function LastSigned(events: seq<Event>, key: string): Option<Bytes> {
    if events == [] then None
    else
      var rest := LastSigned(events[1..], key);
      if rest.Some? then rest
      else if events[0].Signed? && events[0].key == key then Some(events[0].value) else None
  }

  function LastLocal(events: seq<Event>, key: string): Option<Bytes> {
    if events == [] then None
    else
      var rest := LastLocal(events[1..], key);
      if rest.Some? then rest
      else if events[0].Local? && events[0].key == key then Some(events[0].value) else None
  }

  function Entry(m: map<string, Bytes>, key: string): Option<Bytes> { if key in m then Some(m[key]) else None }

  function OrElse(a: Option<Bytes>, b: Option<Bytes>): Option<Bytes> { if a.Some? then a else b }

  // The context holds, under every key, the last value attached along the events, or else
  // what it held before.
  ghost predicate Attached(before: Ctx, events: seq<Event>, after: Ctx) {
    forall key ::
      && Entry(after.signed, key) == OrElse(LastSigned(events, key), Entry(before.signed, key))
      && Entry(after.local, key) == OrElse(LastLocal(events, key), Entry(before.local, key))
  }

  ghost predicate Traced<R(!new)>(core: Core, w: World, ctx: Ctx, s: Script<R>, events: seq<Event>, w': World, ctx': Ctx, result: R) {
    && Along(s, events, result)
    && w.effects <= w'.effects && Answered(core, w.effects, events, NewCalls(w, w'))
    && Attached(ctx, events, ctx')
  }

  lemma TraceStep<R(!new)>(core: Core, w: World, ctx: Ctx, e: Effect, onOk: Script<R>, onErr: Script<R>,
                           w1: World, ok: bool, ctx1: Ctx, rest: seq<Event>, w': World, ctx': Ctx, result: R)
    requires (w1, ok) == PerformEffect(core, w, e) && ctx1 == if ok then ctx.(row := Record(ctx.row, e)) else ctx
    requires Traced(core, w1, ctx1, if ok then onOk else onErr, rest, w', ctx', result)
    ensures Traced(core, w, ctx, Perform(e, onOk, onErr), [Did(e, ok)] + rest, w', ctx', result)
  {
    var events := [Did(e, ok)] + rest;
    assert events[1..] == rest;
    PerformObserves(core, w, e);
    CallsAccumulate(w, w1, w');
    if w1 == w {
      assert NewCalls(w, w') == NewCalls(w1, w');
    } else {
      assert NewCalls(w, w1) == [EffectCall(e, ok)];
      assert NewCalls(w, w')[1..] == NewCalls(w1, w');
    }
    AttachedStep(ctx1, events, ctx');
  }

  // An event that attaches nothing changes nothing.
  lemma AttachedStep(before: Ctx, events: seq<Event>, after: Ctx)
    requires events != [] && events[0].Did? && Attached(before, events[1..], after)
    ensures Attached(before, events, after)
  {
    forall key ensures LastSigned(events, key) == LastSigned(events[1..], key) && LastLocal(events, key) == LastLocal(events[1..], key) {}
  }

  lemma AttachSignedStep(ctx: Ctx, key: string, value: Bytes, rest: seq<Event>, after: Ctx)
    requires Attached(ctx.(signed := ctx.signed[key := value]), rest, after)
    ensures Attached(ctx, [Signed(key, value)] + rest, after)
  {
    assert ([Signed(key, value)] + rest)[1..] == rest;
  }

  lemma AttachLocalStep(ctx: Ctx, key: string, value: Bytes, rest: seq<Event>, after: Ctx)
    requires Attached(ctx.(local := ctx.local[key := value]), rest, after)
    ensures Attached(ctx, [Local(key, value)] + rest, after)
  {
    assert ([Local(key, value)] + rest)[1..] == rest;
  }

  /** Running a script takes the branch the backend's answers select, makes exactly that
      branch's calls, returns what it returns, and leaves under every metadata key the last
      value attached along it. */
  lemma {:induction false} ExecTraced<R(!new)>(core: Core, w: World, ctx: Ctx, s: Script<R>) returns (events: seq<Event>)
    ensures var (w', ctx', result) := Exec(core, w, ctx, s);
            Traced(core, w, ctx, s, events, w', ctx', result)
    decreases s
  {
    match s {
      case Return(_) =>
        events := [];
        assert NewCalls(w, w) == [];
      case Perform(e, onOk, onErr) =>
        var (w1, ok) := PerformEffect(core, w, e);
        var ctx1, next := if ok then ctx.(row := Record(ctx.row, e)) else ctx, if ok then onOk else onErr;
        var rest := ExecTraced(core, w1, ctx1, next);
        var (w', ctx', result) := Exec(core, w1, ctx1, next);
        TraceStep(core, w, ctx, e, onOk, onErr, w1, ok, ctx1, rest, w', ctx', result);
        events := [Did(e, ok)] + rest;
      case AttachSigned(key, value, next) =>
        var ctx1 := ctx.(signed := ctx.signed[key := value]);
        var rest := ExecTraced(core, w, ctx1, next);
        events := [Signed(key, value)] + rest;
        assert events[1..] == rest;
        AttachSignedStep(ctx, key, value, rest, Exec(core, w, ctx1, next).1);
      case AttachLocal(key, value, next) =>
        var ctx1 := ctx.(local := ctx.local[key := value]);
        var rest := ExecTraced(core, w, ctx1, next);
        events := [Local(key, value)] + rest;
        assert events[1..] == rest;
        AttachLocalStep(ctx, key, value, rest, Exec(core, w, ctx1, next).1);
    }
  }

  // ----- What the records say -----

  // The class of a handler's failure, as it is recorded and answered.
  function Coded(error: HandlerError): (string, string) {
    match error
    case InvalidInput(message) => ("invalid_input", message)
    case HandlerFailure(message) => ("failed", message)
  }

  // The outcome of the call, and the output hash that goes with it: the guard's denial, or
  // the first undeclared effect, or the handler's own result.
  ghost predicate OutcomeOf(core: Core, w: World, d: Descriptor, input: Bytes, outcome: ReceiptOutcome, outputHash: Option<Hash>)
    requires d.name in core.handlers
  {
    var decision, (_, ctx, result) := Guarded(core, w, d, input).2, Handled(core, w, d, input);
    if decision.Deny? then outcome == DeniedOutcome(decision.code, decision.message) && outputHash == None
    else if !Clean(core, w, d, input) then outputHash == None && BreachOutcome(ctx.row, d.row, outcome)
    else match result
      case Ok(output) => outcome == CompletedOutcome && outputHash == core.hash(output)
      case Err(error) => outcome == FailedOutcome(Coded(error).0, Coded(error).1) && outputHash == None
  }

  ghost predicate BreachOutcome(observed: Row, declared: Row, outcome: ReceiptOutcome) {
    exists v :: Reported(observed, declared, v)
                && outcome == DeniedOutcome("effect.violation", "observed undeclared " + v.field + " target \"" + v.target + "\"")
  }

  // The context the call ended with.
  ghost function FinalCtx(core: Core, w: World, d: Descriptor, input: Bytes): Ctx
    requires d.name in core.handlers
  {
    if Guarded(core, w, d, input).2.Deny? then Guarded(core, w, d, input).1 else Handled(core, w, d, input).1
  }

  // The receipt names the operation and its receipt kind, carries the hashes, the outcome
  // and, each in its own drawer, the metadata the call attached.
  ghost predicate ReceiptSays(core: Core, w: World, d: Descriptor, input: Bytes, receipt: Receipt)
    requires d.name in core.handlers
  {
    && receipt.operation == d.name && receipt.receiptKind == d.receiptKind
    && receipt.inputHash == core.hash(input)
    && receipt.signed == FinalCtx(core, w, d, input).signed && receipt.local == FinalCtx(core, w, d, input).local
    && OutcomeOf(core, w, d, input, receipt.outcome, receipt.outputHash)
  }

  ghost predicate StartedSays(d: Descriptor, fact: Fact) {
    && fact.operation == d.name && fact.receiptKind == d.receiptKind && fact.lifecycle == Started
    && fact.code == None && fact.message == None && fact.inputHash == None && fact.outputHash == None
  }

  // The terminal fact says what the receipt says.
  ghost predicate FactSays(core: Core, w: World, d: Descriptor, input: Bytes, fact: Fact)
    requires d.name in core.handlers
  {
    && fact.operation == d.name && fact.receiptKind == d.receiptKind && fact.inputHash == core.hash(input)
    && match fact.lifecycle
       case Started => false
       case Completed => fact.code == None && fact.message == None && OutcomeOf(core, w, d, input, CompletedOutcome, fact.outputHash)
       case Failed => fact.code.Some? && fact.message.Some?
                      && OutcomeOf(core, w, d, input, FailedOutcome(fact.code.value, fact.message.value), fact.outputHash)
       case Denied => fact.code.Some? && fact.message.Some?
                      && OutcomeOf(core, w, d, input, DeniedOutcome(fact.code.value, fact.message.value), fact.outputHash)
  }

  // The verdict of a turn that got past the Started fact.
  lemma RanVerdict(core: Core, w: World, w': World, d: Descriptor, input: Bytes, r: Result<CheckoutResult, RuntimeError>, t: Turn)
    requires TurnHolds(core, w, w', d, input, r, t) && t.Ran? && d.name in core.handlers
    ensures t.ctx == Handled(core, w, d, input).1 && t.result == Handled(core, w, d, input).2
    ensures Clean(core, w, d, input) <==> FirstViolation(t.ctx.row, d.row).None?
  {
    HandledGrows(core, w, d, input);
    SameCalls(w, Handled(core, w, d, input).0, w');
    ViolationExact(AcceptedBetween(w, w'), d.row);
  }

  lemma VerdictOutcome(core: Core, w: World, w': World, d: Descriptor, input: Bytes, r: Result<CheckoutResult, RuntimeError>, t: Turn)
    requires TurnHolds(core, w, w', d, input, r, t) && !t.StartRefused? && d.name in core.handlers
    ensures t.ctx == FinalCtx(core, w, d, input)
    ensures var receipt := VerdictReceipt(core, d, input, t.ctx, t.verdict);
            OutcomeOf(core, w, d, input, receipt.outcome, receipt.outputHash)
  {
    if t.Ran? {
      RanVerdict(core, w, w', d, input, r, t);
      ViolationNamed(t.ctx.row, d.row);
    }
  }

  lemma VerdictSays(core: Core, w: World, w': World, d: Descriptor, input: Bytes, r: Result<CheckoutResult, RuntimeError>, t: Turn)
    requires TurnHolds(core, w, w', d, input, r, t) && !t.StartRefused? && d.name in core.handlers
    ensures ReceiptSays(core, w, d, input, VerdictReceipt(core, d, input, t.ctx, t.verdict))
    ensures FactSays(core, w, d, input, VerdictFact(core, d, input, t.verdict))
  {
    VerdictOutcome(core, w, w', d, input, r, t);
  }

  // Whatever was offered to the sinks, taken or refused, says this; a success was recorded.
  ghost predicate Leaves(core: Core, w: World, w': World, d: Descriptor, input: Bytes, r: Result<CheckoutResult, RuntimeError>)
    requires d.name in core.handlers
  {
    && (w'.receipts == w.receipts
        || exists a :: w'.receipts == w.receipts + [a] && ReceiptSays(core, w, d, input, a.item))
    && w.facts <= w'.facts
    && (forall k :: |w.facts| <= k < |w'.facts| ==>
          StartedSays(d, w'.facts[k].item) || FactSays(core, w, d, input, w'.facts[k].item))
    && (r.Ok? && core.receiptSink.Some? ==> |w'.receipts| == |w.receipts| + 1)
  }

  lemma TurnLeaves(core: Core, w: World, w': World, d: Descriptor, input: Bytes, r: Result<CheckoutResult, RuntimeError>, t: Turn)
    requires TurnHolds(core, w, w', d, input, r, t) && d.name in core.handlers
    ensures Leaves(core, w, w', d, input, r)
  {
    if !t.StartRefused? {
      VerdictSays(core, w, w', d, input, r, t);
      var receipt, fact := VerdictReceipt(core, d, input, t.ctx, t.verdict), VerdictFact(core, d, input, t.verdict);
      var facts := if t.Ran? then w.facts + Taken(core.statusSink.Some?, StartedFact(d)) else w.facts;
      ConcludedLogs(core, facts, w.receipts, w', d, input, t.ctx, t.verdict, r, fact, receipt);
    }
  }

  // The logs of a conclusion hold nothing but its own fact and receipt.
  lemma ConcludedLogs(core: Core, facts: seq<Attempt<Fact>>, receipts: seq<Attempt<Receipt>>, w': World, d: Descriptor, input: Bytes,
                      ctx: Ctx, v: Verdict, r: Result<CheckoutResult, RuntimeError>, fact: Fact, receipt: Receipt)
    requires Concluded(core, facts, receipts, w', d, input, ctx, v, r)
    requires fact == VerdictFact(core, d, input, v) && receipt == VerdictReceipt(core, d, input, ctx, v)
    ensures w'.facts == facts || exists a :: w'.facts == facts + [a] && a.item == fact
    ensures w'.receipts == receipts || exists a :: w'.receipts == receipts + [a] && a.item == receipt
    ensures r.Ok? && core.receiptSink.Some? ==> |w'.receipts| == |receipts| + 1
  {
    assert facts + [] == facts && receipts + [] == receipts;
  }

  /** Every record a checkout offers says exactly what its guard and handler did: operation,
      receipt kind, hashes, outcome, and the signed and local metadata they attached. */
  lemma RecordsAreExact(core: Core, w: World, name: string, input: Bytes)
    requires Wired(core) && name in core.descriptors
    ensures var (w', r) := Checkout(core, w, name, input);
            Leaves(core, w, w', core.descriptors[name], input, r)
  {
    var t := CheckoutTurn(core, w, name, input);
    var (w', r) := Checkout(core, w, name, input);
    TurnLeaves(core, w, w', core.descriptors[name], input, r, t);
  }

  /** The metadata of a call is what its guard and then its handler attached, the last value
      under each key, signed and local apart. */
  lemma MetadataIsAttached(core: Core, w: World, d: Descriptor, input: Bytes) returns (guard: seq<Event>, handler: seq<Event>)
    requires d.name in core.handlers
    ensures Along(Judgement(core.guard, w.turns + 1, d, input), guard, Guarded(core, w, d, input).2)
    ensures Along(core.handlers[d.name](w.turns + 1, input), handler, Handled(core, w, d, input).2)
    ensures Attached(Ctx(EMPTY, map[], map[]), guard, Guarded(core, w, d, input).1)
    ensures Attached(Guarded(core, w, d, input).1, handler, Handled(core, w, d, input).1)
  {
    var (w1, ctx, _) := Guarded(core, w, d, input);
    guard := ExecTraced(core, w.(turns := w.turns + 1), FRESH, Judgement(core.guard, w.turns + 1, d, input));
    handler := ExecTraced(core, Begin(core, w1, d), ctx, core.handlers[d.name](w.turns + 1, input));
  }

  // The answer says what the receipt says: the handler's own output with whatever the sink
  // recorded for this receipt, the handler's failure, or the denial.
  ghost predicate AnswerSays(core: Core, w: World, w': World, d: Descriptor, input: Bytes, r: Result<CheckoutResult, RuntimeError>)
    requires d.name in core.handlers
  {
    match r
    case Ok(value) =>
      && value.descriptor == d && Handled(core, w, d, input).2 == Ok(value.output)
      && OutcomeOf(core, w, d, input, CompletedOutcome, core.hash(value.output))
      && RecordedAs(core, w, w', value.recorded)
    case Err(HandlerFault(name, code, message)) => name == d.name && OutcomeOf(core, w, d, input, FailedOutcome(code, message), None)
    case Err(DeniedCall(name, code, message)) => name == d.name && OutcomeOf(core, w, d, input, DeniedOutcome(code, message), None)
    case Err(error) => SinkFailed(r)
  }

  // What the receipt sink answered for the one new receipt; nothing without a sink.
  ghost predicate RecordedAs(core: Core, w: World, w': World, recorded: Option<Recorded>) {
    if core.receiptSink.None? then recorded == None && w'.receipts == w.receipts
    else
      && recorded.Some? && |w'.receipts| == |w.receipts| + 1 && w.receipts <= w'.receipts
      && core.receiptSink.value(w.receipts, w'.receipts[|w.receipts|].item) == Ok(recorded.value)
  }

  lemma AnswerOfTurn(core: Core, w: World, w': World, d: Descriptor, input: Bytes, r: Result<CheckoutResult, RuntimeError>, t: Turn)
    requires TurnHolds(core, w, w', d, input, r, t) && d.name in core.handlers
    ensures AnswerSays(core, w, w', d, input, r)
  {
    if !t.StartRefused? && !SinkFailed(r) {
      VerdictOutcome(core, w, w', d, input, r, t);
      if t.Ran? { RanVerdict(core, w, w', d, input, r, t); }
      assert w.receipts + [] == w.receipts;
    }
  }

  /** The caller is answered with exactly the outcome its receipt records. */
  lemma AnswersAreExact(core: Core, w: World, name: string, input: Bytes)
    requires Wired(core) && name in core.descriptors
    ensures var (w', r) := Checkout(core, w, name, input);
            AnswerSays(core, w, w', core.descriptors[name], input, r)
  {
    var t := CheckoutTurn(core, w, name, input);
    var (w', r) := Checkout(core, w, name, input);
    AnswerOfTurn(core, w, w', core.descriptors[name], input, r, t);
  }

  // The handler failure a sink error must carry: that of a handler that ran clean and failed.
  ghost function Carried(core: Core, w: World, d: Descriptor, input: Bytes): Option<Cause>
    requires d.name in core.handlers
  {
    var result := Handled(core, w, d, input).2;
    if Guarded(core, w, d, input).2.Admit? && StartTaken(core, w, d) && Clean(core, w, d, input) && result.Err?
    then Some(Cause(Coded(result.error).0, Coded(result.error).1)) else None
  }

  /** A sink error carries the handler's own failure, and only that. */
  lemma SinkErrorCarriesFailure(core: Core, w: World, name: string, input: Bytes)
    requires Wired(core) && name in core.descriptors
    ensures var r := Checkout(core, w, name, input).1;
            SinkFailed(r) ==> r.error.name == name && r.error.cause == Carried(core, w, core.descriptors[name], input)
  {
    var t := CheckoutTurn(core, w, name, input);
    var (w', r) := Checkout(core, w, name, input);
    SinkErrorOfTurn(core, w, w', core.descriptors[name], input, r, t);
  }

  lemma SinkErrorOfTurn(core: Core, w: World, w': World, d: Descriptor, input: Bytes, r: Result<CheckoutResult, RuntimeError>, t: Turn)
    requires TurnHolds(core, w, w', d, input, r, t) && d.name in core.handlers
    ensures SinkFailed(r) ==> r.error.name == d.name && r.error.cause == Carried(core, w, d, input)
  {
    if t.Ran? { RanVerdict(core, w, w', d, input, r, t); }
  }
}
