/**
 The dispatch semantics of one checkout: guard, Started fact, handler, effect check,
 then the receipt and status writes, failing closed at the first refused write.

 Every actor the runtime does not own is arbitrary. A guard or handler is any finite
 script of context calls that may branch on each call's outcome; a sink or backend is
 any function of its own history.
 */
module Dispatch {
  import opened Evidence
  import opened EffectRow
  import opened Dotted

  const MAX_OPERATION_NAME_BYTES := 128

  datatype Descriptor = Descriptor(
    name: string, effect: EffectClass, inputRef: string, outputRef: string, receiptKind: string, row: Row)

  // `OperationDescriptor::validate`
  predicate ValidDescriptor(d: Descriptor) {
    && ValidToken(d.name, MAX_OPERATION_NAME_BYTES)
    && ValidTarget(d.inputRef) && ValidTarget(d.outputRef) && ValidTarget(d.receiptKind)
    && ValidForDescriptor(d.row, d.effect, d.receiptKind)
  }

  // At most this many characters, in non-empty words joined by single dots.
  ghost predicate DottedWords(s: string, max: nat) { |s| <= max && NoneEmpty(Segments(s)) && PartsOf(IsWordChar, Segments(s)) }

  /** A descriptor is valid iff its name and its three references are dotted words of the
      allowed lengths and its row is one its class accepts. */
  lemma {:induction false} DescriptorsExact(d: Descriptor)
    ensures ValidDescriptor(d) <==>
            && DottedWords(d.name, 128) && DottedWords(d.inputRef, 256) && DottedWords(d.outputRef, 256)
            && DottedWords(d.receiptKind, 256) && (forall x :: x in AllTargets(d.row) ==> DottedWords(x, 256))
            && AxesAllowed(d.row, d.effect) && Demanded(d.row, d.effect, d.receiptKind)
  {
    forall s, max ensures ValidToken(s, max) <==> DottedWords(s, max) { TokenGrammar(s, max); }
    ValidRowsExact(d.row, d.effect, d.receiptKind);
  }

  // ----- Actors -----

  datatype Decision = Admit | Deny(code: string, message: string)

  datatype HandlerError = InvalidInput(message: string) | HandlerFailure(message: string) {
    function Class(): string { if InvalidInput? then "invalid_input" else "failed" }
  }

  type HandlerResult = Result<Bytes, HandlerError>

  // What a guard or handler does with its context before it returns.
  datatype Script<R> =
    | Return(result: R)
    | Perform(effect: Effect, onOk: Script<R>, onErr: Script<R>)
    | AttachSigned(key: string, value: Bytes, next: Script<R>)
    | AttachLocal(key: string, value: Bytes, next: Script<R>)

  // The first argument numbers the checkout, so an actor may behave differently each time.
  type Handler = (nat, Bytes) -> Script<HandlerResult>
  type Guard = (nat, Descriptor, Bytes) -> Script<Decision>

  // A call that reached the backend, and its answer.
  datatype EffectCall = EffectCall(effect: Effect, accepted: bool)

  // `gate` is the pre-check of a wrapping backend (always true for a bare one): a call
  // it rejects never reaches the backend behind it.
  datatype Backend = Backend(gate: Effect -> bool, answer: (seq<EffectCall>, Effect) -> bool)

  datatype Lifecycle = Started | Completed | Failed | Denied

  datatype Fact = Fact(
    operation: string, lifecycle: Lifecycle, receiptKind: string, code: Option<string>, message: Option<string>,
    inputHash: Option<Hash>, outputHash: Option<Hash>)

  datatype ReceiptOutcome =
    | CompletedOutcome
    | FailedOutcome(code: string, message: string)
    | DeniedOutcome(code: string, message: string)

  datatype Receipt = Receipt(
    operation: string, receiptKind: string, inputHash: Option<Hash>, outputHash: Option<Hash>,
    outcome: ReceiptOutcome, signed: map<string, Bytes>, local: map<string, Bytes>)

  // A write offered to a sink, and the sink's refusal message if it refused.
  datatype Attempt<+T> = Attempt(item: T, refusal: Option<string>)

  type FactSink = (seq<Attempt<Fact>>, Fact) -> Option<string>

  // What a receipt sink hands back for a receipt it took: an envelope and metadata of its
  // own making.
  datatype Recorded = Recorded(envelope: Receipt, metadata: Option<Bytes>)

  type ReceiptSink = (seq<Attempt<Receipt>>, Receipt) -> Result<Recorded, string>

  datatype Core = Core(
    descriptors: map<string, Descriptor>,
    handlers: map<string, Handler>,
    guard: Option<Guard>,
    receiptSink: Option<ReceiptSink>,
    statusSink: Option<FactSink>,
    hash: Bytes -> Option<Hash>,
    backend: Option<Backend>)

  // Everything the runtime has done to the outside so far.
  datatype World = World(
    facts: seq<Attempt<Fact>>,
    receipts: seq<Attempt<Receipt>>,
    effects: seq<EffectCall>,
    runs: seq<string>,
    turns: nat)

  // ----- The invocation context -----

  datatype Ctx = Ctx(row: Row, signed: map<string, Bytes>, local: map<string, Bytes>)

  const FRESH := Ctx(EMPTY, map[], map[])

  function PerformEffect(core: Core, w: World, e: Effect): (World, bool) {
    if core.backend.None? || !core.backend.value.gate(e) then (w, false)
    else
      var ok := core.backend.value.answer(w.effects, e);
      (w.(effects := w.effects + [EffectCall(e, ok)]), ok)
  }

  // Run a script; each handle performs its effect, then records it.
  function Exec<R>(core: Core, w: World, ctx: Ctx, s: Script<R>): (World, Ctx, R)
    decreases s
  {
    match s
    case Return(result) => (w, ctx, result)
    case Perform(e, onOk, onErr) =>
      var (w', ok) := PerformEffect(core, w, e);
      if ok then Exec(core, w', ctx.(row := Record(ctx.row, e)), onOk) else Exec(core, w', ctx, onErr)
    case AttachSigned(key, value, next) => Exec(core, w, ctx.(signed := ctx.signed[key := value]), next)
    case AttachLocal(key, value, next) => Exec(core, w, ctx.(local := ctx.local[key := value]), next)
  }

  function AcceptedOf(calls: seq<EffectCall>): seq<Effect> {
    if calls == [] then []
    else AcceptedOf(calls[..|calls| - 1]) + (if calls[|calls| - 1].accepted then [calls[|calls| - 1].effect] else [])
  }

  // ----- Writes to the sinks -----

  datatype Write = WriteFact(fact: Fact) | WriteReceipt(receipt: Receipt)

  // Offer one write; an absent sink takes everything silently.
  function Offer(core: Core, w: World, x: Write): (World, Option<string>) {
    match x
    case WriteFact(fact) =>
      if core.statusSink.None? then (w, None)
      else
        var refusal := core.statusSink.value(w.facts, fact);
        (w.(facts := w.facts + [Attempt(fact, refusal)]), refusal)
    case WriteReceipt(receipt) =>
      if core.receiptSink.None? then (w, None)
      else
        var answer := core.receiptSink.value(w.receipts, receipt);
        var refusal := if answer.Err? then Some(answer.error) else None;
        (w.(receipts := w.receipts + [Attempt(receipt, refusal)]), refusal)
  }

  datatype Refusal = Refusal(write: Write, message: string)

  // Offer writes in order, stopping at the first refusal.
  function Flush(core: Core, w: World, writes: seq<Write>): (World, Option<Refusal>)
    decreases |writes|
  {
    if writes == [] then (w, None)
    else
      var (w', refusal) := Offer(core, w, writes[0]);
      if refusal.Some? then (w', Some(Refusal(writes[0], refusal.value))) else Flush(core, w', writes[1..])
  }

  // ----- Outcomes -----

  // The handler failure a sink error may have to carry along.
  datatype Cause = Cause(code: string, message: string)

  datatype RuntimeError =
    | UnknownOperation(name: string)
    | MissingHandler(name: string)
    | HandlerFault(name: string, code: string, message: string)
    | DeniedCall(name: string, code: string, message: string)
    | ReceiptSinkFault(name: string, message: string, cause: Option<Cause>)
    | StatusSinkFault(name: string, message: string, cause: Option<Cause>)

  datatype CheckoutResult = CheckoutResult(descriptor: Descriptor, output: Bytes, recorded: Option<Recorded>)

  datatype Verdict =
    | Passed(output: Bytes)
    | Faulted(code: string, message: string)
    | Barred(code: string, message: string)

  function StartedFact(d: Descriptor): Fact { Fact(d.name, Started, d.receiptKind, None, None, None, None) }

  function MissingFact(core: Core, d: Descriptor, input: Bytes): Fact {
    Fact(d.name, Failed, d.receiptKind, Some("missing_handler"),
         Some("operation descriptor has no registered handler"), core.hash(input), None)
  }

  function VerdictFact(core: Core, d: Descriptor, input: Bytes, v: Verdict): Fact {
    match v
    case Passed(output) => Fact(d.name, Completed, d.receiptKind, None, None, core.hash(input), core.hash(output))
    case Faulted(code, message) => Fact(d.name, Failed, d.receiptKind, Some(code), Some(message), core.hash(input), None)
    case Barred(code, message) => Fact(d.name, Denied, d.receiptKind, Some(code), Some(message), core.hash(input), None)
  }

  function VerdictReceipt(core: Core, d: Descriptor, input: Bytes, ctx: Ctx, v: Verdict): Receipt {
    match v
    case Passed(output) =>
      Receipt(d.name, d.receiptKind, core.hash(input), core.hash(output), CompletedOutcome, ctx.signed, ctx.local)
    case Faulted(code, message) =>
      Receipt(d.name, d.receiptKind, core.hash(input), None, FailedOutcome(code, message), ctx.signed, ctx.local)
    case Barred(code, message) =>
      Receipt(d.name, d.receiptKind, core.hash(input), None, DeniedOutcome(code, message), ctx.signed, ctx.local)
  }

  // Success records its receipt before its fact; failure the other way round.
  function VerdictWrites(core: Core, d: Descriptor, input: Bytes, ctx: Ctx, v: Verdict): seq<Write> {
    var fact, receipt := WriteFact(VerdictFact(core, d, input, v)), WriteReceipt(VerdictReceipt(core, d, input, ctx, v));
    if v.Passed? then [receipt, fact] else [fact, receipt]
  }

  function SinkFault(name: string, refusal: Refusal, cause: Option<Cause>): RuntimeError {
    if refusal.write.WriteFact? then StatusSinkFault(name, refusal.message, cause)
    else ReceiptSinkFault(name, refusal.message, cause)
  }

  function CauseOf(v: Verdict): Option<Cause> { if v.Faulted? then Some(Cause(v.code, v.message)) else None }

  // What the receipt sink hands back for this receipt, given the attempts before it.
  function RecordedBy(core: Core, receipts: seq<Attempt<Receipt>>, receipt: Receipt): Option<Recorded> {
    if core.receiptSink.None? then None
    else match core.receiptSink.value(receipts, receipt)
      case Ok(recorded) => Some(recorded)
      case Err(_) => None
  }

  // The answer to a verdict whose records were taken, on top of the given receipts.
  function Answer(core: Core, receipts: seq<Attempt<Receipt>>, d: Descriptor, input: Bytes, ctx: Ctx, v: Verdict)
    : Result<CheckoutResult, RuntimeError>
  {
    match v
    case Passed(output) => Ok(CheckoutResult(d, output, RecordedBy(core, receipts, VerdictReceipt(core, d, input, ctx, v))))
    case Faulted(code, message) => Err(HandlerFault(d.name, code, message))
    case Barred(code, message) => Err(DeniedCall(d.name, code, message))
  }

  // Write a verdict out, and answer with it if every write was taken.
  function Conclude(core: Core, w: World, d: Descriptor, input: Bytes, ctx: Ctx, v: Verdict)
    : (World, Result<CheckoutResult, RuntimeError>)
  {
    var (w', refusal) := Flush(core, w, VerdictWrites(core, d, input, ctx, v));
    (w', if refusal.Some? then Err(SinkFault(d.name, refusal.value, CauseOf(v))) else Answer(core, w.receipts, d, input, ctx, v))
  }

  // ----- The checkout -----

  function ViolationMessage(v: Violation): string {
    "observed undeclared " + v.field + " target \"" + v.target + "\""
  }

  // An undeclared effect overrides whatever the handler returned.
  function Judge(d: Descriptor, ctx: Ctx, result: HandlerResult): Verdict {
    var violation := FirstViolation(ctx.row, d.row);
    if violation.Some? then Barred("effect.violation", ViolationMessage(violation.value))
    else match result
      case Ok(output) => Passed(output)
      case Err(error) => Faulted(error.Class(), error.message)
  }

  // What a guard does with a call; no guard admits it.
  function Judgement(guard: Option<Guard>, turn: nat, d: Descriptor, input: Bytes): Script<Decision> {
    if guard.None? then Return(Admit) else guard.value(turn, d, input)
  }

  function RunGuard(core: Core, w: World, d: Descriptor, input: Bytes): (World, Ctx, Decision) {
    Exec(core, w, FRESH, Judgement(core.guard, w.turns, d, input))
  }

  // From an admitted call on: Started, handler, verdict.
  function Dispatched(core: Core, w: World, d: Descriptor, input: Bytes, ctx: Ctx)
    : (World, Result<CheckoutResult, RuntimeError>)
  {
    var (w1, refused) := Flush(core, w, [WriteFact(StartedFact(d))]);
    if refused.Some? then (w1, Err(SinkFault(d.name, refused.value, None)))
    else if d.name !in core.handlers then
      var (w2, refused2) := Flush(core, w1, [WriteFact(MissingFact(core, d, input))]);
      (w2, Err(if refused2.Some? then SinkFault(d.name, refused2.value, None) else MissingHandler(d.name)))
    else
      var (w2, ctx2, result) :=
        Exec(core, w1.(runs := w1.runs + [d.name]), ctx, core.handlers[d.name](w.turns, input));
      Conclude(core, w2, d, input, ctx2, Judge(d, ctx2, result))
  }

  function Checkout(core: Core, w: World, name: string, input: Bytes): (World, Result<CheckoutResult, RuntimeError>) {
    if name !in core.descriptors then (w, Err(UnknownOperation(name)))
    else
      var d := core.descriptors[name];
      var (w1, ctx, decision) := RunGuard(core, w.(turns := w.turns + 1), d, input);
      if decision.Deny? then Conclude(core, w1, d, input, ctx, Barred(decision.code, decision.message))
      else Dispatched(core, w1, d, input, ctx)
  }
}
