/**
 Authority before the call: which guards and handlers can be denied for their effects, by
 some backend, and which never are.
 */
module ScriptAuthority {
  import opened Evidence
  import opened EffectRow
  import opened Dispatch
  import opened DispatchSafety
  import SyncCore

  // Every effect the script could perform, on any branch, is authorised.
  ghost predicate Within<R>(row: Row, s: Script<R>) {
    match s
    case Return(_) => true
    case Perform(e, onOk, onErr) => Authorised(row, e) && Within(row, onOk) && Within(row, onErr)
    case AttachSigned(_, _, next) => Within(row, next)
    case AttachLocal(_, _, next) => Within(row, next)
  }

  // The effects accepted while a script ran.
  ghost function AcceptedBy<R>(core: Core, w: World, ctx: Ctx, s: Script<R>): seq<Effect> {
    ExecObserves(core, w, ctx, s);
    AcceptedBetween(w, Exec(core, w, ctx, s).0)
  }

  // One step of a script: what it accepts, then what the rest does.
  lemma AcceptedStep<R>(core: Core, w: World, ctx: Ctx, e: Effect, onOk: Script<R>, onErr: Script<R>)
    ensures var (w1, ok) := PerformEffect(core, w, e);
            AcceptedBy(core, w, ctx, Perform(e, onOk, onErr)) ==
            if ok then [e] + AcceptedBy(core, w1, ctx.(row := Record(ctx.row, e)), onOk) else AcceptedBy(core, w1, ctx, onErr)
  {
    var (w1, ok) := PerformEffect(core, w, e);
    PerformObserves(core, w, e);
    var next, ctx1 := if ok then onOk else onErr, if ok then ctx.(row := Record(ctx.row, e)) else ctx;
    ExecObserves(core, w1, ctx1, next);
    var w2 := Exec(core, w1, ctx1, next).0;
    CallsAccumulate(w, w1, w2);
    AcceptedConcat(NewCalls(w, w1), NewCalls(w1, w2));
  }

  lemma AuthorisedCons(row: Row, e: Effect, es: seq<Effect>)
    ensures AllAuthorised(row, [e] + es) <==> Authorised(row, e) && AllAuthorised(row, es)
  {
    assert forall x :: x in [e] + es <==> x == e || x in es;
  }

  lemma {:induction false} WithinIsSafe<R>(row: Row, core: Core, w: World, ctx: Ctx, s: Script<R>)
    requires Within(row, s)
    ensures AllAuthorised(row, AcceptedBy(core, w, ctx, s))
    decreases s
  {
    match s {
      case Return(_) =>
        assert NewCalls(w, w) == [];
      case Perform(e, onOk, onErr) =>
        AcceptedStep(core, w, ctx, e, onOk, onErr);
        var (w1, ok) := PerformEffect(core, w, e);
        if ok {
          WithinIsSafe(row, core, w1, ctx.(row := Record(ctx.row, e)), onOk);
          AuthorisedCons(row, e, AcceptedBy(core, w1, ctx.(row := Record(ctx.row, e)), onOk));
        } else {
          WithinIsSafe(row, core, w1, ctx, onErr);
        }
      case AttachSigned(key, value, next) => WithinIsSafe(row, core, w, ctx.(signed := ctx.signed[key := value]), next);
      case AttachLocal(key, value, next) => WithinIsSafe(row, core, w, ctx.(local := ctx.local[key := value]), next);
    }
  }

  // ----- A backend for every way to fail -----

  // From the `n`-th call on, the backend gives these answers, whatever it is asked.
  ghost predicate Plays(core: Core, n: nat, answers: seq<bool>) {
    && core.backend.Some? && (forall e :: core.backend.value.gate(e))
    && forall h: seq<EffectCall>, e :: n <= |h| < n + |answers| ==> core.backend.value.answer(h, e) == answers[|h| - n]
  }

  function Playing(n: nat, answers: seq<bool>): Backend {
    Backend((e: Effect) => true, (h: seq<EffectCall>, e: Effect) => n <= |h| < n + |answers| && answers[|h| - n])
  }

  // With these answers the script has an unauthorised effect accepted.
  ghost predicate Strays<R>(row: Row, s: Script<R>, answers: seq<bool>)
    decreases s
  {
    match s
    case Return(_) => false
    case Perform(e, onOk, onErr) =>
      && answers != []
      && ((answers[0] && !Authorised(row, e)) || Strays(row, if answers[0] then onOk else onErr, answers[1..]))
    case AttachSigned(_, _, next) => Strays(row, next, answers)
    case AttachLocal(_, _, next) => Strays(row, next, answers)
  }

  lemma {:induction false} FindStray<R>(row: Row, s: Script<R>) returns (answers: seq<bool>)
    requires !Within(row, s)
    ensures Strays(row, s, answers)
    decreases s
  {
    match s {
      case Perform(e, onOk, onErr) =>
        if !Authorised(row, e) {
          answers := [true];
        } else if !Within(row, onOk) {
          var rest := FindStray(row, onOk);
          answers := [true] + rest;
          assert answers[1..] == rest;
        } else {
          var rest := FindStray(row, onErr);
          answers := [false] + rest;
          assert answers[1..] == rest;
        }
      case AttachSigned(_, _, next) => answers := FindStray(row, next);
      case AttachLocal(_, _, next) => answers := FindStray(row, next);
    }
  }

  lemma PlaysNext(core: Core, w: World, e: Effect, answers: seq<bool>)
    requires Plays(core, |w.effects|, answers) && answers != []
    ensures var (w1, ok) := PerformEffect(core, w, e);
            ok == answers[0] && |w1.effects| == |w.effects| + 1 && Plays(core, |w1.effects|, answers[1..])
  {
  }

  lemma {:induction false} StrayIsAccepted<R>(row: Row, core: Core, w: World, ctx: Ctx, s: Script<R>, answers: seq<bool>)
    requires Strays(row, s, answers) && Plays(core, |w.effects|, answers)
    ensures !AllAuthorised(row, AcceptedBy(core, w, ctx, s))
    decreases s
  {
    match s {
      case Perform(e, onOk, onErr) =>
        AcceptedStep(core, w, ctx, e, onOk, onErr);
        PlaysNext(core, w, e, answers);
        var (w1, ok) := PerformEffect(core, w, e);
        var ctx1 := if ok then ctx.(row := Record(ctx.row, e)) else ctx;
        if ok { AuthorisedCons(row, e, AcceptedBy(core, w1, ctx1, onOk)); }
        if !(ok && !Authorised(row, e)) { StrayIsAccepted(row, core, w1, ctx1, if ok then onOk else onErr, answers[1..]); }
      case AttachSigned(key, value, next) => StrayIsAccepted(row, core, w, ctx.(signed := ctx.signed[key := value]), next, answers);
      case AttachLocal(key, value, next) => StrayIsAccepted(row, core, w, ctx.(local := ctx.local[key := value]), next, answers);
    }
  }

  /** A script stays within its row under every backend iff every effect it could perform
      is authorised. */
  lemma {:induction false} ScriptWithin<R>(row: Row, core: Core, w: World, ctx: Ctx, s: Script<R>)
    ensures Within(row, s) <==>
            forall b: Option<Backend> :: AllAuthorised(row, AcceptedBy(core.(backend := b), w, ctx, s))
  {
    if Within(row, s) {
      forall b: Option<Backend> ensures AllAuthorised(row, AcceptedBy(core.(backend := b), w, ctx, s)) {
        WithinIsSafe(row, core.(backend := b), w, ctx, s);
      }
    } else {
      var answers := FindStray(row, s);
      var core' := core.(backend := Some(Playing(|w.effects|, answers)));
      StrayIsAccepted(row, core', w, ctx, s, answers);
    }
  }

  // ----- Whole calls -----

  // Whenever the guard could come to admit the call, nothing it had accepted on the way was
  // unauthorised, and the handler stays within the row. `tainted` says that something was.
  ghost predicate Permitted(row: Row, g: Script<Decision>, h: Script<HandlerResult>, tainted: bool)
    decreases g
  {
    match g
    case Return(decision) => decision.Deny? || (!tainted && Within(row, h))
    case Perform(e, onOk, onErr) =>
      Permitted(row, onOk, h, tainted || !Authorised(row, e)) && Permitted(row, onErr, h, tainted)
    case AttachSigned(_, _, next) => Permitted(row, next, h, tainted)
    case AttachLocal(_, _, next) => Permitted(row, next, h, tainted)
  }

  lemma {:induction false} PermittedIsSafe(row: Row, core: Core, w: World, ctx: Ctx, g: Script<Decision>, h: Script<HandlerResult>, tainted: bool)
    requires Permitted(row, g, h, tainted)
    ensures Exec(core, w, ctx, g).2.Admit? ==> !tainted && AllAuthorised(row, AcceptedBy(core, w, ctx, g)) && Within(row, h)
    decreases g
  {
    match g {
      case Return(_) =>
        assert NewCalls(w, w) == [];
      case Perform(e, onOk, onErr) =>
        AcceptedStep(core, w, ctx, e, onOk, onErr);
        var (w1, ok) := PerformEffect(core, w, e);
        if ok {
          var ctx1 := ctx.(row := Record(ctx.row, e));
          PermittedIsSafe(row, core, w1, ctx1, onOk, h, tainted || !Authorised(row, e));
          AuthorisedCons(row, e, AcceptedBy(core, w1, ctx1, onOk));
        } else {
          PermittedIsSafe(row, core, w1, ctx, onErr, h, tainted);
        }
      case AttachSigned(key, value, next) => PermittedIsSafe(row, core, w, ctx.(signed := ctx.signed[key := value]), next, h, tainted);
      case AttachLocal(key, value, next) => PermittedIsSafe(row, core, w, ctx.(local := ctx.local[key := value]), next, h, tainted);
    }
  }

  // With these answers the guard admits the call, after or before something unauthorised.
  ghost predicate CallStrays(row: Row, g: Script<Decision>, h: Script<HandlerResult>, tainted: bool, answers: seq<bool>)
    decreases g
  {
    match g
    case Return(decision) => decision.Admit? && (tainted || Strays(row, h, answers))
    case Perform(e, onOk, onErr) =>
      && answers != []
      && CallStrays(row, if answers[0] then onOk else onErr, h, tainted || (answers[0] && !Authorised(row, e)), answers[1..])
    case AttachSigned(_, _, next) => CallStrays(row, next, h, tainted, answers)
    case AttachLocal(_, _, next) => CallStrays(row, next, h, tainted, answers)
  }

  lemma {:induction false} FindCallStray(row: Row, g: Script<Decision>, h: Script<HandlerResult>, tainted: bool) returns (answers: seq<bool>)
    requires !Permitted(row, g, h, tainted)
    ensures CallStrays(row, g, h, tainted, answers)
    decreases g
  {
    match g {
      case Return(_) =>
        if tainted { answers := []; } else { answers := FindStray(row, h); }
      case Perform(e, onOk, onErr) =>
        var ok := !Permitted(row, onOk, h, tainted || !Authorised(row, e));
        var rest := FindCallStray(row, if ok then onOk else onErr, h, tainted || (ok && !Authorised(row, e)));
        answers := [ok] + rest;
        assert answers[1..] == rest;
      case AttachSigned(_, _, next) => answers := FindCallStray(row, next, h, tainted);
      case AttachLocal(_, _, next) => answers := FindCallStray(row, next, h, tainted);
    }
  }

  // The handler is about to stray.
  ghost predicate StraysNext(row: Row, core: Core, w: World, h: Script<HandlerResult>) {
    exists answers :: Strays(row, h, answers) && Plays(core, |w.effects|, answers)
  }

  lemma {:induction false} CallStrayed(row: Row, core: Core, w: World, ctx: Ctx, g: Script<Decision>, h: Script<HandlerResult>,
                                       tainted: bool, answers: seq<bool>)
    requires CallStrays(row, g, h, tainted, answers) && Plays(core, |w.effects|, answers)
    ensures var (w1, _, decision) := Exec(core, w, ctx, g);
            decision.Admit? && (tainted || !AllAuthorised(row, AcceptedBy(core, w, ctx, g)) || StraysNext(row, core, w1, h))
    decreases g
  {
    match g {
      case Return(_) =>
      case Perform(e, onOk, onErr) =>
        AcceptedStep(core, w, ctx, e, onOk, onErr);
        PlaysNext(core, w, e, answers);
        var (w1, ok) := PerformEffect(core, w, e);
        var ctx1 := if ok then ctx.(row := Record(ctx.row, e)) else ctx;
        CallStrayed(row, core, w1, ctx1, if ok then onOk else onErr, h, tainted || (ok && !Authorised(row, e)), answers[1..]);
        if ok { AuthorisedCons(row, e, AcceptedBy(core, w1, ctx1, onOk)); }
      case AttachSigned(key, value, next) => CallStrayed(row, core, w, ctx.(signed := ctx.signed[key := value]), next, h, tainted, answers);
      case AttachLocal(key, value, next) => CallStrayed(row, core, w, ctx.(local := ctx.local[key := value]), next, h, tainted, answers);
    }
  }

  // The guard's script and the handler's script for a call.
  ghost function GuardScript(core: Core, w: World, d: Descriptor, input: Bytes): Script<Decision> {
    Judgement(core.guard, w.turns + 1, d, input)
  }

  ghost function HandlerScript(core: Core, w: World, d: Descriptor, input: Bytes): Script<HandlerResult>
    requires d.name in core.handlers
  {
    core.handlers[d.name](w.turns + 1, input)
  }

  // What the call had accepted is what the guard had accepted, then what the handler had.
  lemma AcceptedSplits(core: Core, w: World, d: Descriptor, input: Bytes)
    requires d.name in core.handlers
    ensures var (w1, ctx, _), w2 := Guarded(core, w, d, input), Handled(core, w, d, input).0;
            && w.effects <= w2.effects
            && AcceptedBetween(w, w2) ==
               AcceptedBy(core, w.(turns := w.turns + 1), FRESH, GuardScript(core, w, d, input))
               + AcceptedBy(core, Begin(core, w1, d), ctx, HandlerScript(core, w, d, input))
  {
    var (w1, ctx, _) := Guarded(core, w, d, input);
    var w0, w2, begun := w.(turns := w.turns + 1), Handled(core, w, d, input).0, Begin(core, w1, d);
    assert w1 == Exec(core, w0, FRESH, GuardScript(core, w, d, input)).0;
    assert w2 == Exec(core, begun, ctx, HandlerScript(core, w, d, input)).0;
    Grows(core, w0, FRESH, GuardScript(core, w, d, input), w1);
    Grows(core, begun, ctx, HandlerScript(core, w, d, input), w2);
    SplitAt(w, w0, w1, begun, w2);
  }

  lemma {:induction false} Grows<R>(core: Core, w: World, ctx: Ctx, s: Script<R>, w': World)
    requires w' == Exec(core, w, ctx, s).0
    ensures w.effects <= w'.effects && AcceptedBy(core, w, ctx, s) == AcceptedBetween(w, w')
  {
    ExecObserves(core, w, ctx, s);
  }

  lemma SplitAt(w: World, w0: World, w1: World, begun: World, w2: World)
    requires w0.effects == w.effects && begun.effects == w1.effects && w.effects <= w1.effects <= w2.effects
    ensures w.effects <= w2.effects && AcceptedBetween(w, w2) == AcceptedBetween(w0, w1) + AcceptedBetween(begun, w2)
  {
    CallsAccumulate(w, w1, w2);
    AcceptedConcat(NewCalls(w, w1), NewCalls(w1, w2));
  }

  lemma AuthorisedConcat(row: Row, a: seq<Effect>, b: seq<Effect>)
    ensures AllAuthorised(row, a + b) <==> AllAuthorised(row, a) && AllAuthorised(row, b)
  {
    assert forall e :: e in a + b <==> e in a || e in b;
  }

  lemma CleanSplits(core: Core, w: World, d: Descriptor, input: Bytes)
    requires d.name in core.handlers
    ensures var (w1, ctx, _) := Guarded(core, w, d, input);
            Clean(core, w, d, input) <==>
            && AllAuthorised(d.row, AcceptedBy(core, w.(turns := w.turns + 1), FRESH, GuardScript(core, w, d, input)))
            && AllAuthorised(d.row, AcceptedBy(core, Begin(core, w1, d), ctx, HandlerScript(core, w, d, input)))
  {
    AcceptedSplits(core, w, d, input);
    var (w1, ctx, _) := Guarded(core, w, d, input);
    AuthorisedConcat(d.row, AcceptedBy(core, w.(turns := w.turns + 1), FRESH, GuardScript(core, w, d, input)),
                     AcceptedBy(core, Begin(core, w1, d), ctx, HandlerScript(core, w, d, input)));
  }

  // The guard admits the call, and it is denied all the same.
  ghost predicate EffectDenied(core: Core, w: World, name: string, input: Bytes)
    requires name in core.descriptors
  {
    var r := Checkout(core, w, name, input).1;
    Guarded(core, w, core.descriptors[name], input).2.Admit? && r.Err? && r.error.DeniedCall?
  }

  lemma EffectDeniedExact(core: Core, w: World, name: string, input: Bytes)
    requires Wired(core) && Accepting(core) && name in core.descriptors
    ensures var d := core.descriptors[name];
            EffectDenied(core, w, name, input) <==> Guarded(core, w, d, input).2.Admit? && !Clean(core, w, d, input)
  {
    AuthorityDecides(core, w, name, input);
  }

  lemma PermittedIsClean(core: Core, w: World, d: Descriptor, input: Bytes)
    requires d.name in core.handlers && Guarded(core, w, d, input).2.Admit?
    requires Permitted(d.row, GuardScript(core, w, d, input), HandlerScript(core, w, d, input), false)
    ensures Clean(core, w, d, input)
  {
    CleanSplits(core, w, d, input);
    var (w1, ctx, _) := Guarded(core, w, d, input);
    var g, h := GuardScript(core, w, d, input), HandlerScript(core, w, d, input);
    PermittedIsSafe(d.row, core, w.(turns := w.turns + 1), FRESH, g, h, false);
    WithinIsSafe(d.row, core, Begin(core, w1, d), ctx, h);
  }

  lemma {:induction false} StrayIsUnclean(core: Core, w: World, d: Descriptor, input: Bytes, answers: seq<bool>)
    requires d.name in core.handlers && Plays(core, |w.effects|, answers)
    requires CallStrays(d.row, GuardScript(core, w, d, input), HandlerScript(core, w, d, input), false, answers)
    ensures Guarded(core, w, d, input).2.Admit? && !Clean(core, w, d, input)
  {
    CleanSplits(core, w, d, input);
    var (w1, ctx, _) := Guarded(core, w, d, input);
    var g, h := GuardScript(core, w, d, input), HandlerScript(core, w, d, input);
    CallStrayed(d.row, core, w.(turns := w.turns + 1), FRESH, g, h, false, answers);
    if StraysNext(d.row, core, w1, h) {
      var rest :| Strays(d.row, h, rest) && Plays(core, |w1.effects|, rest);
      StrayIsAccepted(d.row, core, Begin(core, w1, d), ctx, h, rest);
    }
  }

  lemma PermittedNotDenied(core: Core, w: World, name: string, input: Bytes)
    requires Wired(core) && Accepting(core) && name in core.descriptors && PermittedCall(core, w, name, input)
    ensures !EffectDenied(core, w, name, input)
  {
    var d := core.descriptors[name];
    EffectDeniedExact(core, w, name, input);
    if Guarded(core, w, d, input).2.Admit? { PermittedIsClean(core, w, d, input); }
  }

  lemma {:induction false} StrayIsDenied(core: Core, w: World, name: string, input: Bytes, answers: seq<bool>)
    requires Wired(core) && Accepting(core) && name in core.descriptors && Plays(core, |w.effects|, answers)
    requires var d := core.descriptors[name];
             CallStrays(d.row, GuardScript(core, w, d, input), HandlerScript(core, w, d, input), false, answers)
    ensures EffectDenied(core, w, name, input)
  {
    EffectDeniedExact(core, w, name, input);
    StrayIsUnclean(core, w, core.descriptors[name], input, answers);
  }

  // The call's guard and handler keep to the operation's row.
  ghost predicate PermittedCall(core: Core, w: World, name: string, input: Bytes)
    requires Wired(core) && name in core.descriptors
  {
    var d := core.descriptors[name];
    Permitted(d.row, GuardScript(core, w, d, input), HandlerScript(core, w, d, input), false)
  }

  /** Known before the call: with accepting sinks, no backend can have the effect check deny
      a call iff, whenever its guard could admit it, the guard's accepted effects and every
      effect the handler could perform are authorised. */
  lemma DenialForeseen(core: Core, w: World, name: string, input: Bytes)
    requires Wired(core) && Accepting(core) && name in core.descriptors
    ensures PermittedCall(core, w, name, input) <==>
            forall b: Option<Backend> :: !EffectDenied(core.(backend := b), w, name, input)
  {
    if PermittedCall(core, w, name, input) {
      forall b: Option<Backend> ensures !EffectDenied(core.(backend := b), w, name, input) {
        PermittedNotDenied(core.(backend := b), w, name, input);
      }
    } else {
      var b := DenyingBackend(core, w, name, input);
      assert EffectDenied(core.(backend := Some(b)), w, name, input);
    }
  }

  lemma DenyingBackend(core: Core, w: World, name: string, input: Bytes) returns (b: Backend)
    requires Wired(core) && Accepting(core) && name in core.descriptors && !PermittedCall(core, w, name, input)
    ensures EffectDenied(core.(backend := Some(b)), w, name, input)
  {
    var d := core.descriptors[name];
    var answers := FindCallStray(d.row, GuardScript(core, w, d, input), HandlerScript(core, w, d, input), false);
    b := Playing(|w.effects|, answers);
    StrayIsDenied(core.(backend := Some(b)), w, name, input, answers);
  }

  // ----- Denial without a guard -----

  /** With no guard at all, a handler that has one effect accepted is denied iff the effect
      is not authorised. */
  lemma GuardlessDenial(core: Core, w: World, name: string, input: Bytes, e: Effect)
    requires Wired(core) && Accepting(core) && name in core.descriptors && core.guard.None?
    requires OneEffect(core, w, core.descriptors[name], input, e)
    ensures var r := Checkout(core, w, name, input).1;
            (r.Err? && r.error.DeniedCall?) <==> !Authorised(core.descriptors[name].row, e)
  {
    OneEffectClean(core, w, core.descriptors[name], input, e);
    AuthorityDecides(core, w, name, input);
  }

  // The handler performs this one effect, which the backend accepts, and returns.
  ghost predicate OneEffect(core: Core, w: World, d: Descriptor, input: Bytes, e: Effect) {
    && d.name in core.handlers && core.backend.Some? && core.backend.value.gate(e) && core.backend.value.answer(w.effects, e)
    && exists result, onErr :: HandlerScript(core, w, d, input) == Perform(e, Return(result), onErr)
  }

  lemma OneEffectClean(core: Core, w: World, d: Descriptor, input: Bytes, e: Effect)
    requires core.guard.None? && OneEffect(core, w, d, input, e)
    ensures Guarded(core, w, d, input).2 == Admit
    ensures Clean(core, w, d, input) <==> Authorised(d.row, e)
  {
    var result, onErr :| HandlerScript(core, w, d, input) == Perform(e, Return(result), onErr);
    CleanSplits(core, w, d, input);
    var w0 := w.(turns := w.turns + 1);
    assert Guarded(core, w, d, input) == (w0, FRESH, Admit);
    NothingAccepted(core, w0, FRESH, Admit);
    OneAccepted(core, Begin(core, w0, d), FRESH, e, result, onErr);
    assert forall x :: x in [e] <==> x == e;
  }

  lemma OneAccepted(core: Core, w: World, ctx: Ctx, e: Effect, result: HandlerResult, onErr: Script<HandlerResult>)
    requires core.backend.Some? && core.backend.value.gate(e) && core.backend.value.answer(w.effects, e)
    ensures AcceptedBy(core, w, ctx, Perform(e, Return(result), onErr)) == [e]
  {
    AcceptedStep(core, w, ctx, e, Return(result), onErr);
    NothingAccepted(core, PerformEffect(core, w, e).0, ctx.(row := Record(ctx.row, e)), result);
  }

  lemma NothingAccepted<R>(core: Core, w: World, ctx: Ctx, result: R)
    ensures AcceptedBy(core, w, ctx, Return(result)) == []
  {
    assert NewCalls(w, w) == [];
  }

  // An inspection that declares nothing and reads something, under a backend and sinks that
  // take everything, with no guard.
  const READER := Descriptor("op", Inspect, "in", "out", "receipt", EMPTY)

  function Reads(turn: nat, input: Bytes): Script<HandlerResult> {
    Perform(ReadEvent("x"), Return(Ok([])), Return(Ok([])))
  }

  function TakeReceipt(h: seq<Attempt<Receipt>>, receipt: Receipt): Result<Recorded, string> { Ok(Recorded(receipt, None)) }

  function TakeFact(h: seq<Attempt<Fact>>, fact: Fact): Option<string> { None }

  function GuardlessCore(): Core {
    Core(map["op" := READER], map["op" := Reads], None, Some(TakeReceipt), Some(TakeFact), SyncCore.NoHash,
         Some(Backend((e: Effect) => true, (h: seq<EffectCall>, e: Effect) => true)))
  }

  lemma ReaderIsValid()
    ensures ValidDescriptor(READER)
  {
    assert ValidToken("op", MAX_OPERATION_NAME_BYTES);
    assert ValidTarget("in") && ValidTarget("out") && ValidTarget("receipt");
  }

  lemma GuardlessCoreWired()
    ensures Wired(GuardlessCore()) && Accepting(GuardlessCore()) && GuardlessCore().guard.None?
  {
    ReaderIsValid();
  }

  /** Such a runtime is wired as the builder wires them, and denies a call without any guard. */
  lemma GuardlessDenialExample()
    ensures Wired(GuardlessCore()) && GuardlessCore().guard.None?
    ensures var r := Checkout(GuardlessCore(), QUIET, "op", []).1; r.Err? && r.error.DeniedCall?
  {
    GuardlessCoreWired();
    var core, e := GuardlessCore(), ReadEvent("x");
    assert core.descriptors["op"] == READER && !Authorised(READER.row, e);
    assert HandlerScript(core, QUIET, READER, []) == Perform(e, Return(Ok([])), Return(Ok([])));
    GuardlessDenial(core, QUIET, "op", [], e);
  }
}
