/**
 What every checkout, and every run of checkouts, guarantees.
 */
module DispatchSafety {
  import opened Evidence
  import opened EffectRow
  import opened Dispatch

  // ----- Observation is exact -----

  // The calls a step added to the backend's log.
  ghost function NewCalls(w: World, w': World): seq<EffectCall>
    requires w.effects <= w'.effects
  {
    w'.effects[|w.effects|..]
  }

  lemma {:induction false} AcceptedConcat(a: seq<EffectCall>, b: seq<EffectCall>)
    ensures AcceptedOf(a + b) == AcceptedOf(a) + AcceptedOf(b)
  {
    if b == [] {
      assert a + b == a;
    } else {
      var n := |b| - 1;
      assert (a + b)[..|a + b| - 1] == a + b[..n];
      AcceptedConcat(a, b[..n]);
    }
  }

  // Only effects change while a script runs, and calls only ever accumulate.
  ghost predicate OnlyEffects(core: Core, w: World, w': World) {
    && w' == w.(effects := w'.effects)
    && w.effects <= w'.effects
    && forall call :: call in NewCalls(w, w') ==> core.backend.Some? && core.backend.value.gate(call.effect)
  }

  lemma OnlyEffectsTrans(core: Core, a: World, b: World, c: World)
    requires OnlyEffects(core, a, b) && OnlyEffects(core, b, c)
    ensures OnlyEffects(core, a, c)
    ensures NewCalls(a, c) == NewCalls(a, b) + NewCalls(b, c)
  {
    assert NewCalls(a, c) == NewCalls(a, b) + NewCalls(b, c);
  }

  /** For every script, the row the context observed is the row it had plus exactly
      the effects the backend accepted while the script ran. */
  lemma {:induction false} ExecObserves<R>(core: Core, w: World, ctx: Ctx, s: Script<R>)
    ensures var (w', ctx', _) := Exec(core, w, ctx, s);
            && OnlyEffects(core, w, w')
            && ctx'.row == RecordAll(ctx.row, AcceptedOf(NewCalls(w, w')))
    decreases s
  {
    match s {
      case Return(_) =>
        assert NewCalls(w, w) == [];
      case Perform(e, onOk, onErr) =>
        var (w1, ok) := PerformEffect(core, w, e);
        var next := if ok then onOk else onErr;
        var ctx1 := if ok then ctx.(row := Record(ctx.row, e)) else ctx;
        ExecObserves(core, w1, ctx1, next);
        var w2 := Exec(core, w1, ctx1, next).0;
        PerformObserves(core, w, e);
        RecordOne(ctx.row, e);
        OnlyEffectsTrans(core, w, w1, w2);
        AcceptedConcat(NewCalls(w, w1), NewCalls(w1, w2));
        RecordAllConcat(ctx.row, AcceptedOf(NewCalls(w, w1)), AcceptedOf(NewCalls(w1, w2)));
      case AttachSigned(key, value, next) => ExecObserves(core, w, ctx.(signed := ctx.signed[key := value]), next);
      case AttachLocal(key, value, next) => ExecObserves(core, w, ctx.(local := ctx.local[key := value]), next);
    }
  }

  lemma PerformObserves(core: Core, w: World, e: Effect)
    ensures var (w', ok) := PerformEffect(core, w, e);
            OnlyEffects(core, w, w') && AcceptedOf(NewCalls(w, w')) == (if ok then [e] else [])
  {
    var (w', ok) := PerformEffect(core, w, e);
    if w' == w {
      assert NewCalls(w, w') == [];
    } else {
      assert NewCalls(w, w') == [EffectCall(e, ok)];
      assert [EffectCall(e, ok)][..0] == [];
      assert AcceptedOf([EffectCall(e, ok)]) == AcceptedOf([]) + (if ok then [e] else []);
    }
  }

  lemma {:induction false} RecordOne(row: Row, e: Effect)
    ensures RecordAll(row, [e]) == Record(row, e)
  {
    assert [e][..0] == [];
  }

  // ----- Writes -----

  // What a sink that took `x` has to show for it; an absent sink shows nothing.
  ghost function Taken<T>(present: bool, x: T): seq<Attempt<T>> { if present then [Attempt(x, None)] else [] }

  ghost predicate Accepting(core: Core) {
    && core.statusSink.Some? && (forall h, x :: core.statusSink.value(h, x) == None)
    && core.receiptSink.Some? && (forall h, x :: core.receiptSink.value(h, x).Ok?)
  }

  lemma {:induction false} FlushOne(core: Core, w: World, a: Write)
    ensures Flush(core, w, [a]) ==
            var (w1, refusal) := Offer(core, w, a);
            (w1, if refusal.Some? then Some(Refusal(a, refusal.value)) else None)
  {
    assert [a][1..] == [];
  }

  lemma {:induction false} FlushTwo(core: Core, w: World, a: Write, b: Write)
    ensures Flush(core, w, [a, b]) ==
            var (w1, refusal) := Offer(core, w, a);
            if refusal.Some? then (w1, Some(Refusal(a, refusal.value))) else Flush(core, w1, [b])
  {
    assert [a, b][1..] == [b];
  }

  ghost predicate SinkFailed(r: Result<CheckoutResult, RuntimeError>) {
    r.Err? && (r.error.StatusSinkFault? || r.error.ReceiptSinkFault?)
  }

  // The status sink refused the fact with this message; the receipt was taken before it
  // on success, and never offered otherwise.
  ghost predicate FactRefused(core: Core, facts: seq<Attempt<Fact>>, receipts: seq<Attempt<Receipt>>, w': World,
                              fact: Fact, receipt: Receipt, passed: bool, message: string) {
    && core.statusSink.Some? && core.statusSink.value(facts, fact) == Some(message)
    && w'.facts == facts + [Attempt(fact, Some(message))]
    && w'.receipts == if passed then receipts + Taken(core.receiptSink.Some?, receipt) else receipts
  }

  // The receipt sink refused the receipt with this message; the fact was taken before it
  // on failure or denial, and never offered on success.
  ghost predicate ReceiptRefused(core: Core, facts: seq<Attempt<Fact>>, receipts: seq<Attempt<Receipt>>, w': World,
                                 fact: Fact, receipt: Receipt, passed: bool, message: string) {
    && core.receiptSink.Some? && core.receiptSink.value(receipts, receipt) == Err(message)
    && w'.receipts == receipts + [Attempt(receipt, Some(message))]
    && w'.facts == if passed then facts else facts + Taken(core.statusSink.Some?, fact)
  }

  // The logs and the answer of writing out verdict `v`, from the given logs on: either
  // both records were taken and the answer is the verdict's, or the answer is the error
  // of the one sink that refused.
  ghost predicate Concluded(core: Core, facts: seq<Attempt<Fact>>, receipts: seq<Attempt<Receipt>>, w': World,
                            d: Descriptor, input: Bytes, ctx: Ctx, v: Verdict, r: Result<CheckoutResult, RuntimeError>) {
    var fact, receipt := VerdictFact(core, d, input, v), VerdictReceipt(core, d, input, ctx, v);
    if SinkFailed(r) then
      var message := r.error.message;
      if r.error.StatusSinkFault? then
        && r == Err(StatusSinkFault(d.name, message, CauseOf(v)))
        && FactRefused(core, facts, receipts, w', fact, receipt, v.Passed?, message)
      else
        && r == Err(ReceiptSinkFault(d.name, message, CauseOf(v)))
        && ReceiptRefused(core, facts, receipts, w', fact, receipt, v.Passed?, message)
    else
      && r == Answer(core, receipts, d, input, ctx, v)
      && (core.statusSink.Some? ==> core.statusSink.value(facts, fact) == None)
      && (core.receiptSink.Some? ==> core.receiptSink.value(receipts, receipt).Ok?)
      && w'.facts == facts + Taken(core.statusSink.Some?, fact)
      && w'.receipts == receipts + Taken(core.receiptSink.Some?, receipt)
  }

  // A verdict is answered only when every configured sink took its record; otherwise
  // the first refusal is, and nothing is offered after it.
  lemma ConcludeFailsClosed(core: Core, w: World, d: Descriptor, input: Bytes, ctx: Ctx, v: Verdict)
    ensures var (w', r) := Conclude(core, w, d, input, ctx, v);
            && w' == w.(facts := w'.facts, receipts := w'.receipts)
            && Concluded(core, w.facts, w.receipts, w', d, input, ctx, v, r)
  {
    var fact := WriteFact(VerdictFact(core, d, input, v));
    var receipt := WriteReceipt(VerdictReceipt(core, d, input, ctx, v));
    if v.Passed? {
      FlushTwo(core, w, receipt, fact);
      FlushOne(core, Offer(core, w, receipt).0, fact);
    } else {
      FlushTwo(core, w, fact, receipt);
      FlushOne(core, Offer(core, w, fact).0, receipt);
    }
    assert w.facts + [] == w.facts && w.receipts + [] == w.receipts;
  }

  // ----- One checkout -----

  // Since `w0` the backend saw only gated calls, and the context observed exactly the
  // accepted ones.
  ghost predicate Observing(core: Core, w0: World, w: World, ctx: Ctx) {
    && w0.effects <= w.effects
    && (forall call :: call in NewCalls(w0, w) ==> core.backend.Some? && core.backend.value.gate(call.effect))
    && ctx.row == RecordAll(EMPTY, AcceptedOf(NewCalls(w0, w)))
  }

  lemma ObservingGrows(core: Core, w0: World, w: World, ctx: Ctx, w': World, row': Row)
    requires Observing(core, w0, w, ctx) && OnlyEffects(core, w, w')
    requires row' == RecordAll(RecordAll(EMPTY, AcceptedOf(NewCalls(w0, w))), AcceptedOf(NewCalls(w, w')))
    ensures w0.effects <= w'.effects
    ensures row' == RecordAll(EMPTY, AcceptedOf(NewCalls(w0, w')))
    ensures forall call :: call in NewCalls(w0, w') ==> core.backend.Some? && core.backend.value.gate(call.effect)
  {
    var before, after := NewCalls(w0, w), NewCalls(w, w');
    CallsAccumulate(w0, w, w');
    AcceptedConcat(before, after);
    RecordAllConcat(EMPTY, AcceptedOf(before), AcceptedOf(after));
    assert forall call :: call in before + after <==> call in before || call in after;
  }

  lemma CallsAccumulate(w0: World, w: World, w': World)
    requires w0.effects <= w.effects <= w'.effects
    ensures w0.effects <= w'.effects && NewCalls(w0, w') == NewCalls(w0, w) + NewCalls(w, w')
  {
  }

  lemma {:induction false} ExecObserving<R>(core: Core, w0: World, w: World, ctx: Ctx, s: Script<R>)
    requires Observing(core, w0, w, ctx)
    ensures var (w', ctx', _) := Exec(core, w, ctx, s);
            Observing(core, w0, w', ctx') && w' == w.(effects := w'.effects)
  {
    ExecObserves(core, w, ctx, s);
    var (w', ctx', _) := Exec(core, w, ctx, s);
    ObservingGrows(core, w0, w, ctx, w', ctx'.row);
  }

  lemma FreshObserves(core: Core, w: World)
    ensures Observing(core, w, w.(turns := w.turns + 1), FRESH)
  {
    assert NewCalls(w, w.(turns := w.turns + 1)) == [];
  }

  // ----- The actors of one checkout -----

  // What the guard does with the call, from a world before it.
  ghost function Guarded(core: Core, w: World, d: Descriptor, input: Bytes): (World, Ctx, Decision) {
    RunGuard(core, w.(turns := w.turns + 1), d, input)
  }

  // The status sink takes the Started fact.
  ghost predicate StartTaken(core: Core, w: World, d: Descriptor) {
    core.statusSink.Some? ==> core.statusSink.value(w.facts, StartedFact(d)) == None
  }

  // The world the handler starts in, once the guard has admitted the call.
  ghost function Begin(core: Core, w1: World, d: Descriptor): World {
    w1.(facts := w1.facts + Taken(core.statusSink.Some?, StartedFact(d)), runs := w1.runs + [d.name])
  }

  // What the operation's own handler does with an admitted call.
  ghost function Handled(core: Core, w: World, d: Descriptor, input: Bytes): (World, Ctx, HandlerResult)
    requires d.name in core.handlers
  {
    var (w1, ctx, _) := Guarded(core, w, d, input);
    Exec(core, Begin(core, w1, d), ctx, core.handlers[d.name](w.turns + 1, input))
  }

  // How a resolved checkout of an operation with a handler went.
  datatype Turn =
    | DeniedByGuard(ctx: Ctx, verdict: Verdict)
    | StartRefused(ctx: Ctx)
    | Ran(ctx: Ctx, result: HandlerResult, verdict: Verdict)

  // The turn is the one the guard, the status sink and the handler made it: denied iff
  // the guard denies, refused iff it admits and the sink refuses the Started fact, run
  // otherwise, with what they did to the context and the backend.
  ghost predicate TurnMade(core: Core, w: World, w': World, d: Descriptor, input: Bytes, t: Turn) {
    var (w1, ctx1, decision) := Guarded(core, w, d, input);
    match t
    case DeniedByGuard(ctx, v) =>
      decision.Deny? && v == Barred(decision.code, decision.message) && ctx == ctx1 && w'.effects == w1.effects
    case StartRefused(ctx) => decision.Admit? && !StartTaken(core, w, d) && ctx == ctx1 && w'.effects == w1.effects
    case Ran(ctx, result, v) =>
      && decision.Admit? && StartTaken(core, w, d) && d.name in core.handlers
      && var (w2, ctx2, result2) := Handled(core, w, d, input);
         ctx == ctx2 && result == result2 && w'.effects == w2.effects
  }

  // The records of the turn, and its answer.
  ghost predicate TurnRecorded(core: Core, w: World, w': World, d: Descriptor, input: Bytes,
                               r: Result<CheckoutResult, RuntimeError>, t: Turn) {
    && w'.turns == w.turns + 1
    && Observing(core, w, w', t.ctx)
    && match t
       case DeniedByGuard(ctx, v) =>
         v.Barred? && w'.runs == w.runs && Concluded(core, w.facts, w.receipts, w', d, input, ctx, v, r)
       case StartRefused(_) =>
         && w'.runs == w.runs && w'.receipts == w.receipts
         && r.Err? && r.error.StatusSinkFault? && r == Err(StatusSinkFault(d.name, r.error.message, None))
         && core.statusSink.Some? && core.statusSink.value(w.facts, StartedFact(d)) == Some(r.error.message)
         && w'.facts == w.facts + [Attempt(StartedFact(d), Some(r.error.message))]
       case Ran(ctx, result, v) =>
         && w'.runs == w.runs + [d.name] && v == Judge(d, ctx, result)
         && Concluded(core, w.facts + Taken(core.statusSink.Some?, StartedFact(d)), w.receipts, w', d, input, ctx, v, r)
  }

  // The turn tells the whole truth: who made it so, and what it left outside.
  ghost predicate TurnHolds(core: Core, w: World, w': World, d: Descriptor, input: Bytes,
                            r: Result<CheckoutResult, RuntimeError>, t: Turn) {
    TurnMade(core, w, w', d, input, t) && TurnRecorded(core, w, w', d, input, r, t)
  }

  // The handler has been started: `w` is `w0` plus the Started fact and the run.
  ghost predicate Begun(core: Core, w0: World, w: World, d: Descriptor) {
    && w.turns == w0.turns + 1 && w.runs == w0.runs + [d.name] && w.receipts == w0.receipts
    && w.facts == w0.facts + Taken(core.statusSink.Some?, StartedFact(d))
  }

  lemma RanTurn(core: Core, w0: World, w: World, d: Descriptor, input: Bytes, ctx: Ctx, s: Script<HandlerResult>)
    returns (t: Turn)
    requires Observing(core, w0, w, ctx) && Begun(core, w0, w, d)
    ensures var (w2, ctx2, result) := Exec(core, w, ctx, s);
            var (w', r) := Conclude(core, w2, d, input, ctx2, Judge(d, ctx2, result));
            && TurnRecorded(core, w0, w', d, input, r, t) && t == Ran(ctx2, result, Judge(d, ctx2, result))
            && w'.effects == w2.effects
  {
    ExecObserving(core, w0, w, ctx, s);
    var (w2, ctx2, result) := Exec(core, w, ctx, s);
    var v := Judge(d, ctx2, result);
    ConcludeFailsClosed(core, w2, d, input, ctx2, v);
    t := Ran(ctx2, result, v);
  }

  // An admitted call, unfolded: refused at Started, or handled and concluded.
  lemma {:induction false} DispatchedSteps(core: Core, w: World, d: Descriptor, input: Bytes, ctx: Ctx)
    requires d.name in core.handlers
    ensures !StartTaken(core, w, d) ==>
              var message := core.statusSink.value(w.facts, StartedFact(d)).value;
              Dispatched(core, w, d, input, ctx) ==
              (w.(facts := w.facts + [Attempt(StartedFact(d), Some(message))]), Err(StatusSinkFault(d.name, message, None)))
    ensures StartTaken(core, w, d) ==>
              var (w2, ctx2, result) := Exec(core, Begin(core, w, d), ctx, core.handlers[d.name](w.turns, input));
              Dispatched(core, w, d, input, ctx) == Conclude(core, w2, d, input, ctx2, Judge(d, ctx2, result))
  {
    var start := WriteFact(StartedFact(d));
    FlushOne(core, w, start);
    var w1 := Offer(core, w, start).0;
    if StartTaken(core, w, d) {
      assert w.facts + [] == w.facts;
      assert w1.(runs := w1.runs + [d.name]) == Begin(core, w, d);
    }
  }

  // From the guard's admission on.
  lemma DispatchedTurn(core: Core, w0: World, w: World, d: Descriptor, input: Bytes, ctx: Ctx) returns (t: Turn)
    requires d.name in core.handlers
    requires Observing(core, w0, w, ctx) && w == w0.(turns := w0.turns + 1, effects := w.effects)
    ensures var (w', r) := Dispatched(core, w, d, input, ctx);
            && TurnRecorded(core, w0, w', d, input, r, t)
            && t == (if StartTaken(core, w0, d)
                     then var (_, ctx2, result) := Exec(core, Begin(core, w, d), ctx, core.handlers[d.name](w.turns, input));
                          Ran(ctx2, result, Judge(d, ctx2, result))
                     else StartRefused(ctx))
            && w'.effects == (if StartTaken(core, w0, d)
                              then Exec(core, Begin(core, w, d), ctx, core.handlers[d.name](w.turns, input)).0.effects
                              else w.effects)
  {
    DispatchedSteps(core, w, d, input, ctx);
    if StartTaken(core, w0, d) {
      BeginObserves(core, w0, w, d, ctx);
      t := RanTurn(core, w0, Begin(core, w, d), d, input, ctx, core.handlers[d.name](w.turns, input));
    } else {
      t := StartRefused(ctx);
    }
  }

  lemma BeginObserves(core: Core, w0: World, w: World, d: Descriptor, ctx: Ctx)
    requires Observing(core, w0, w, ctx) && w == w0.(turns := w0.turns + 1, effects := w.effects)
    ensures Observing(core, w0, Begin(core, w, d), ctx) && Begun(core, w0, Begin(core, w, d), d)
  {
    assert NewCalls(w0, Begin(core, w, d)) == NewCalls(w0, w);
  }

  lemma GuardedObserves(core: Core, w: World, d: Descriptor, input: Bytes)
    ensures var (w1, ctx, _) := Guarded(core, w, d, input);
            Observing(core, w, w1, ctx) && w1 == w.(turns := w.turns + 1, effects := w1.effects)
  {
    var w0 := w.(turns := w.turns + 1);
    FreshObserves(core, w);
    ExecObserving(core, w, w0, FRESH, Judgement(core.guard, w0.turns, d, input));
  }

  lemma DeniedTurn(core: Core, w: World, d: Descriptor, input: Bytes, w1: World, ctx: Ctx, decision: Decision) returns (t: Turn)
    requires Guarded(core, w, d, input) == (w1, ctx, decision) && decision.Deny?
    ensures var (w', r) := Conclude(core, w1, d, input, ctx, Barred(decision.code, decision.message));
            TurnHolds(core, w, w', d, input, r, t)
  {
    var v := Barred(decision.code, decision.message);
    GuardedObserves(core, w, d, input);
    ConcludeFailsClosed(core, w1, d, input, ctx, v);
    t := DeniedByGuard(ctx, v);
  }

  lemma AdmittedTurn(core: Core, w: World, d: Descriptor, input: Bytes, w1: World, ctx: Ctx) returns (t: Turn)
    requires Guarded(core, w, d, input) == (w1, ctx, Admit) && d.name in core.handlers
    ensures var (w', r) := Dispatched(core, w1, d, input, ctx);
            TurnHolds(core, w, w', d, input, r, t)
  {
    GuardedObserves(core, w, d, input);
    t := DispatchedTurn(core, w, w1, d, input, ctx);
    AdmittedMade(core, w, Dispatched(core, w1, d, input, ctx).0, d, input, w1, ctx, t);
  }

  lemma {:induction false} AdmittedMade(core: Core, w: World, w': World, d: Descriptor, input: Bytes, w1: World, ctx: Ctx, t: Turn)
    requires Guarded(core, w, d, input) == (w1, ctx, Admit) && d.name in core.handlers && w1.turns == w.turns + 1
    requires !StartTaken(core, w, d) ==> t == StartRefused(ctx) && w'.effects == w1.effects
    requires StartTaken(core, w, d) ==>
               var (w2, ctx2, result) := Exec(core, Begin(core, w1, d), ctx, core.handlers[d.name](w1.turns, input));
               t == Ran(ctx2, result, Judge(d, ctx2, result)) && w'.effects == w2.effects
    ensures TurnMade(core, w, w', d, input, t)
  {
  }

  /** Every resolved checkout of an operation with a handler is such a turn. */
  lemma CheckoutTurn(core: Core, w: World, name: string, input: Bytes) returns (t: Turn)
    requires name in core.descriptors && core.descriptors[name].name in core.handlers
    ensures var (w', r) := Checkout(core, w, name, input);
            TurnHolds(core, w, w', core.descriptors[name], input, r, t)
  {
    var d := core.descriptors[name];
    var (w1, ctx, decision) := Guarded(core, w, d, input);
    if decision.Deny? {
      t := DeniedTurn(core, w, d, input, w1, ctx, decision);
    } else {
      t := AdmittedTurn(core, w, d, input, w1, ctx);
    }
  }

  // ----- Guarantees of one checkout -----

  // The tables line up by name, as `CoreBuilder::build` leaves them.
  ghost predicate Wired(core: Core) {
    && core.handlers.Keys == core.descriptors.Keys
    && forall n :: n in core.descriptors ==> core.descriptors[n].name == n && ValidDescriptor(core.descriptors[n])
  }

  // The effects the backend accepted between two worlds.
  ghost function AcceptedBetween(w: World, w': World): seq<Effect>
    requires w.effects <= w'.effects
  {
    AcceptedOf(NewCalls(w, w'))
  }

  // What a successful checkout leaves, and whose doing it was: the guard admitted the
  // call, the handler returned the output, and both records were taken.
  ghost predicate Witnessed(core: Core, w: World, w': World, d: Descriptor, input: Bytes, result: CheckoutResult) {
    && d.name in core.handlers
    && var (w2, ctx, handled), v := Handled(core, w, d, input), Passed(result.output);
       && Guarded(core, w, d, input).2 == Admit && handled == Ok(result.output)
       && w'.facts == w.facts + Taken(core.statusSink.Some?, StartedFact(d))
                              + Taken(core.statusSink.Some?, VerdictFact(core, d, input, v))
       && w'.receipts == w.receipts + Taken(core.receiptSink.Some?, VerdictReceipt(core, d, input, ctx, v))
       && Ok(result) == Answer(core, w.receipts, d, input, ctx, v)
       && w'.runs == w.runs + [d.name]
       && w.effects <= w'.effects && w'.effects == w2.effects
       && AllAuthorised(d.row, AcceptedBetween(w, w'))
  }

  lemma TurnSuccess(core: Core, w: World, w': World, d: Descriptor, input: Bytes,
                    r: Result<CheckoutResult, RuntimeError>, t: Turn)
    requires TurnHolds(core, w, w', d, input, r, t)
    ensures NotMissing(r)
    ensures r.Ok? ==> Witnessed(core, w, w', d, input, r.value)
  {
    if r.Ok? {
      assert t.Ran?;
      ViolationExact(AcceptedBetween(w, w'), d.row);
    }
  }

  ghost predicate NotMissing(r: Result<CheckoutResult, RuntimeError>) { !(r.Err? && r.error.MissingHandler?) }

  /** Whatever the sinks do, success means that every configured sink took the Started
      and Completed facts and the Completed receipt, the handler ran once, and every
      effect the backend accepted was declared; a built runtime never answers with a
      missing handler. */
  lemma SuccessIsWitnessed(core: Core, w: World, name: string, input: Bytes)
    requires Wired(core)
    ensures var (w', r) := Checkout(core, w, name, input);
            && NotMissing(r)
            && (r.Ok? ==> name in core.descriptors && Witnessed(core, w, w', core.descriptors[name], input, r.value))
  {
    if name in core.descriptors {
      var t := CheckoutTurn(core, w, name, input);
      var (w', r) := Checkout(core, w, name, input);
      TurnSuccess(core, w, w', core.descriptors[name], input, r, t);
    }
  }

  /** A completed operation performed nothing its effect class forbids; a compute
      operation performed nothing at all. */
  lemma SuccessStaysInClass(core: Core, w: World, name: string, input: Bytes)
    requires Wired(core) && Checkout(core, w, name, input).1.Ok?
    ensures var w' := Checkout(core, w, name, input).0;
            && name in core.descriptors && w.effects <= w'.effects
            && (forall e :: e in AcceptedBetween(w, w') ==> ClassAllows(core.descriptors[name].effect, e))
            && (core.descriptors[name].effect == Compute ==> AcceptedBetween(w, w') == [])
  {
    SuccessIsWitnessed(core, w, name, input);
    var w' := Checkout(core, w, name, input).0;
    var d := core.descriptors[name];
    forall e | e in AcceptedBetween(w, w') ensures ClassAllows(d.effect, e) {
      DeclaredWithinClass(d.row, d.effect, d.receiptKind, e);
    }
    if AcceptedBetween(w, w') != [] { assert AcceptedBetween(w, w')[0] in AcceptedBetween(w, w'); }
  }

  // The receipt and the fact tell the same story.
  ghost predicate Matches(fact: Fact, receipt: Receipt) {
    && fact.operation == receipt.operation && fact.receiptKind == receipt.receiptKind
    && fact.inputHash == receipt.inputHash && fact.outputHash == receipt.outputHash
    && match receipt.outcome
       case CompletedOutcome => fact.lifecycle == Completed && fact.code == None && fact.message == None
       case FailedOutcome(c, m) => fact.lifecycle == Failed && fact.code == Some(c) && fact.message == Some(m)
       case DeniedOutcome(c, m) => fact.lifecycle == Denied && fact.code == Some(c) && fact.message == Some(m)
  }

  // One checkout's records: a receipt with either its Denied fact alone, and no run, or
  // a Started fact, a run, and the fact that matches the receipt.
  ghost predicate Block(name: string, facts: seq<Attempt<Fact>>, receipt: Attempt<Receipt>, runs: seq<string>) {
    && receipt.refusal == None && receipt.item.operation == name
    && ((|facts| == 1 && facts[0].refusal == None && Matches(facts[0].item, receipt.item)
         && receipt.item.outcome.DeniedOutcome? && runs == [])
        || (|facts| == 2 && facts[0].refusal == None && facts[1].refusal == None
            && facts[0].item.operation == name && facts[0].item.lifecycle == Started
            && Matches(facts[1].item, receipt.item) && runs == [name]))
  }

  // What a checkout added to the logs, when its sinks took everything.
  ghost predicate AddsBlock(core: Core, name: string, w: World, w': World, r: Result<CheckoutResult, RuntimeError>) {
    && w.facts <= w'.facts && w.runs <= w'.runs
    && |w'.receipts| == |w.receipts| + 1 && w.receipts <= w'.receipts
    && Block(name, w'.facts[|w.facts|..], w'.receipts[|w.receipts|], w'.runs[|w.runs|..])
    && (r.Ok? <==> w'.receipts[|w.receipts|].item.outcome.CompletedOutcome?)
    && (r.Ok? ==> r.value.recorded == RecordedBy(core, w.receipts, w'.receipts[|w.receipts|].item))
  }

  lemma TurnAddsBlock(core: Core, w: World, w': World, d: Descriptor, input: Bytes,
                      r: Result<CheckoutResult, RuntimeError>, t: Turn)
    requires TurnRecorded(core, w, w', d, input, r, t) && Accepting(core)
    ensures AddsBlock(core, d.name, w, w', r)
  {
    assert !t.StartRefused? && !SinkFailed(r);
    var receipt, fact := VerdictReceipt(core, d, input, t.ctx, t.verdict), VerdictFact(core, d, input, t.verdict);
    var started := if t.Ran? then [Attempt(StartedFact(d), None)] else [];
    assert w.facts + [] == w.facts;
    BlockFrom(core, d, w, w', r, started, fact, receipt, t.Ran?);
  }

  // Records taken in step make a block.
  lemma BlockFrom(core: Core, d: Descriptor, w: World, w': World, r: Result<CheckoutResult, RuntimeError>,
                  started: seq<Attempt<Fact>>, fact: Fact, receipt: Receipt, ran: bool)
    requires started == if ran then [Attempt(StartedFact(d), None)] else []
    requires w'.facts == w.facts + started + [Attempt(fact, None)] && w'.receipts == w.receipts + [Attempt(receipt, None)]
    requires w'.runs == w.runs + (if ran then [d.name] else [])
    requires Matches(fact, receipt) && receipt.operation == d.name && (!ran ==> receipt.outcome.DeniedOutcome?)
    requires r.Ok? <==> receipt.outcome.CompletedOutcome?
    requires r.Ok? ==> r.value.recorded == RecordedBy(core, w.receipts, receipt)
    ensures AddsBlock(core, d.name, w, w', r)
  {
    assert w'.facts[|w.facts|..] == started + [Attempt(fact, None)];
    assert w'.runs[|w.runs|..] == if ran then [d.name] else [];
  }

  /** With accepting sinks, every resolved checkout adds exactly one receipt and either
      [Denied] or [Started, terminal] with the same outcome; the handler runs exactly
      when Started was recorded; the answer agrees with the receipt. */
  lemma CheckoutAddsBlock(core: Core, w: World, name: string, input: Bytes)
    requires Wired(core) && Accepting(core) && name in core.descriptors
    ensures var (w', r) := Checkout(core, w, name, input);
            AddsBlock(core, name, w, w', r)
  {
    var t := CheckoutTurn(core, w, name, input);
    var (w', r) := Checkout(core, w, name, input);
    TurnAddsBlock(core, w, w', core.descriptors[name], input, r, t);
  }

  // Every effect the call had accepted, the guard's and the handler's, was authorised.
  ghost predicate Clean(core: Core, w: World, d: Descriptor, input: Bytes)
    requires d.name in core.handlers
  {
    var w2 := Handled(core, w, d, input).0;
    w.effects <= w2.effects && AllAuthorised(d.row, AcceptedBetween(w, w2))
  }

  // The answer, read off the guard's decision, the handler's result and the effects they
  // had accepted, in that order of precedence.
  ghost predicate Decided(core: Core, w: World, d: Descriptor, input: Bytes, r: Result<CheckoutResult, RuntimeError>)
    requires d.name in core.handlers
  {
    var decision, result := Guarded(core, w, d, input).2, Handled(core, w, d, input).2;
    if decision.Deny? then r == Err(DeniedCall(d.name, decision.code, decision.message))
    else if !Clean(core, w, d, input) then r.Err? && r.error.DeniedCall? && r.error.name == d.name && r.error.code == "effect.violation"
    else match result
      case Ok(output) => r.Ok? && r.value.descriptor == d && r.value.output == output
      case Err(error) => r == Err(HandlerFault(d.name, error.Class(), error.message))
  }

  lemma HandledGrows(core: Core, w: World, d: Descriptor, input: Bytes)
    requires d.name in core.handlers
    ensures w.effects <= Handled(core, w, d, input).0.effects
  {
    GuardedObserves(core, w, d, input);
    var (w1, ctx, _) := Guarded(core, w, d, input);
    ExecObserves(core, Begin(core, w1, d), ctx, core.handlers[d.name](w.turns + 1, input));
  }

  lemma TurnDecided(core: Core, w: World, w': World, d: Descriptor, input: Bytes,
                    r: Result<CheckoutResult, RuntimeError>, t: Turn)
    requires TurnHolds(core, w, w', d, input, r, t) && Accepting(core) && d.name in core.handlers
    ensures Decided(core, w, d, input, r)
  {
    assert !t.StartRefused? && !SinkFailed(r);
    if t.Ran? {
      HandledGrows(core, w, d, input);
      SameCalls(w, Handled(core, w, d, input).0, w');
      ViolationExact(AcceptedBetween(w, w'), d.row);
    }
  }

  lemma SameCalls(w: World, a: World, b: World)
    requires w.effects <= a.effects && a.effects == b.effects
    ensures AcceptedBetween(w, a) == AcceptedBetween(w, b)
  {
  }

  /** With accepting sinks, a call is denied iff the guard denied it or, it having
      admitted, some effect accepted during the call was not authorised: the guard is not
      the only source of denials. It succeeds iff the guard admitted it, the handler
      returned output and every accepted effect was authorised. */
  lemma AuthorityDecides(core: Core, w: World, name: string, input: Bytes)
    requires Wired(core) && Accepting(core) && name in core.descriptors
    ensures var r := Checkout(core, w, name, input).1;
            var d := core.descriptors[name];
            var decision, result := Guarded(core, w, d, input).2, Handled(core, w, d, input).2;
            && Decided(core, w, d, input, r)
            && ((r.Err? && r.error.DeniedCall?) <==> decision.Deny? || !Clean(core, w, d, input))
            && (r.Ok? <==> decision.Admit? && result.Ok? && Clean(core, w, d, input))
  {
    var t := CheckoutTurn(core, w, name, input);
    var (w', r) := Checkout(core, w, name, input);
    TurnDecided(core, w, w', core.descriptors[name], input, r, t);
  }

  // ----- Whole runs -----

  type Request = (string, Bytes)

  const QUIET := World([], [], [], [], 0)

  // Serve requests one after another.
  ghost function Serve(core: Core, w: World, requests: seq<Request>)
    : (r: (World, seq<Result<CheckoutResult, RuntimeError>>))
    ensures |r.1| == |requests|
  {
    if requests == [] then (w, [])
    else
      var n := |requests| - 1;
      var (w1, rs) := Serve(core, w, requests[..n]);
      var (w2, r) := Checkout(core, w1, requests[n].0, requests[n].1);
      (w2, rs + [r])
  }

  // The logs are, in step, the blocks of the checkouts of `names`.
  ghost predicate Blocks(names: seq<string>, facts: seq<Attempt<Fact>>, receipts: seq<Attempt<Receipt>>, runs: seq<string>) {
    if names == [] then facts == [] && receipts == [] && runs == []
    else
      var n := |names| - 1;
      |receipts| == |names| &&
      exists i, j :: 0 <= i <= |facts| && 0 <= j <= |runs|
        && Blocks(names[..n], facts[..i], receipts[..n], runs[..j])
        && Block(names[n], facts[i..], receipts[n], runs[j..])
  }

  ghost function Resolved(core: Core, requests: seq<Request>): seq<string> {
    if requests == [] then []
    else
      var n := |requests| - 1;
      Resolved(core, requests[..n]) + (if requests[n].0 in core.descriptors then [requests[n].0] else [])
  }

  lemma {:induction false} StepLogs(core: Core, names: seq<string>, w: World, name: string, input: Bytes)
    requires Wired(core) && Accepting(core) && Blocks(names, w.facts, w.receipts, w.runs)
    ensures var (w', r) := Checkout(core, w, name, input);
            && NotMissing(r)
            && Blocks(if name in core.descriptors then names + [name] else names, w'.facts, w'.receipts, w'.runs)
  {
    SuccessIsWitnessed(core, w, name, input);
    if name in core.descriptors {
      CheckoutAddsBlock(core, w, name, input);
      var (w', r) := Checkout(core, w, name, input);
      BlocksExtend(core, names, name, w, w', r);
    }
  }

  lemma {:induction false} BlocksExtend(core: Core, names: seq<string>, name: string, w: World, w': World, r: Result<CheckoutResult, RuntimeError>)
    requires Blocks(names, w.facts, w.receipts, w.runs) && AddsBlock(core, name, w, w', r)
    ensures Blocks(names + [name], w'.facts, w'.receipts, w'.runs)
  {
    assert |w.receipts| == |names|;
    assert (names + [name])[..|names|] == names;
    assert w'.facts[..|w.facts|] == w.facts && w'.runs[..|w.runs|] == w.runs && w'.receipts[..|names|] == w.receipts;
  }

  /** The log of a whole run of a built runtime with accepting sinks is, in order, one
      block per resolved request; no answer is a missing handler. */
  lemma {:induction false} RunLogs(core: Core, requests: seq<Request>)
    requires Wired(core) && Accepting(core)
    ensures var (w, rs) := Serve(core, QUIET, requests);
            && Blocks(Resolved(core, requests), w.facts, w.receipts, w.runs)
            && forall k :: 0 <= k < |rs| ==> NotMissing(rs[k])
  {
    if requests != [] {
      var n := |requests| - 1;
      RunLogs(core, requests[..n]);
      var p := Serve(core, QUIET, requests[..n]);
      var q := Checkout(core, p.0, requests[n].0, requests[n].1);
      assert Serve(core, QUIET, requests) == (q.0, p.1 + [q.1]);
      var names := Resolved(core, requests[..n]);
      StepLogs(core, names, p.0, requests[n].0, requests[n].1);
      assert names + [] == names;
    }
  }

  /** At every point of every run, an effect accepted during a completed checkout was
      declared by that operation and allowed by its class. */
  lemma {:induction false} RunAuthority(core: Core, requests: seq<Request>, k: nat)
    requires Wired(core) && k < |requests|
    ensures var (w, _) := Serve(core, QUIET, requests[..k]);
            var (w', rs) := Serve(core, QUIET, requests[..k + 1]);
            var name := requests[k].0;
            rs[k].Ok? ==>
              && name in core.descriptors && w.effects <= w'.effects
              && forall e :: e in AcceptedBetween(w, w') ==>
                   Authorised(core.descriptors[name].row, e) && ClassAllows(core.descriptors[name].effect, e)
  {
    assert requests[..k + 1][..k] == requests[..k];
    var w := Serve(core, QUIET, requests[..k]).0;
    SuccessIsWitnessed(core, w, requests[k].0, requests[k].1);
    if Checkout(core, w, requests[k].0, requests[k].1).1.Ok? {
      SuccessStaysInClass(core, w, requests[k].0, requests[k].1);
    }
  }
}
