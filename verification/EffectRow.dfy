/**
 Operation effect rows: what an operation declares, what its capability handles
 observe, and the check of one against the other.
 */
module EffectRow {
  import opened Sorting
  import opened Evidence
  import opened Dotted

  // A raw 16-bit event kind.
  type Kind = k: nat | k < 0x1_0000

  const EVENT_APPEND_CAPABILITY := "event.append"
  const EVENT_READ_CAPABILITY := "event.read"
  const HOST_CONTROL_CAPABILITY := "host.control"
  const PROJECTION_QUERY_CAPABILITY := "projection.query"
  const RECEIPT_EMIT_CAPABILITY := "receipt.emit"

  const MAX_DESCRIPTOR_REF_BYTES := 256

  // Kept strictly sorted by every builder and recorder.
  datatype Row = Row(
    reading: seq<string>,
    appending: seq<string>,
    querying: seq<string>,
    emitting: seq<string>,
    hostControl: bool,
    capabilities: seq<string>)

  const EMPTY := Row([], [], [], [], false, [])

  // An effect an operation can perform through its context's handles.
  datatype Effect =
    | AppendEvent(kind: Kind, payload: Bytes)
    | ReadEvent(category: string)
    | QueryProjection(projection: string)
    | EmitReceipt(receiptKind: string)
    | UseHostControl

  datatype EffectClass = Inspect | Compute | Persist | Emit | Control

  // ----- Append targets -----

  function HexDigit(n: nat): char
    requires n < 16
  {
    "0123456789abcdef"[n]
  }

  // `format!("evt.{:04x}", kind)`
  function AppendTarget(kind: Kind): string {
    "evt." + [HexDigit(kind / 4096), HexDigit(kind / 256 % 16), HexDigit(kind / 16 % 16), HexDigit(kind % 16)]
  }

  lemma HexDigitInjective(m: nat, n: nat)
    requires m < 16 && n < 16 && HexDigit(m) == HexDigit(n)
    ensures m == n
  {
    var digits := "0123456789abcdef";
    assert forall i, j :: 0 <= i < j < |digits| ==> digits[i] != digits[j];
  }

  lemma HexSplit(n: nat)
    ensures n == 4096 * (n / 4096) + 256 * (n / 256 % 16) + 16 * (n / 16 % 16) + n % 16
  {
    assert n == 16 * (n / 16) + n % 16;
    assert n / 16 == 16 * (n / 256) + n / 16 % 16;
    assert n / 256 == 16 * (n / 4096) + n / 256 % 16;
  }

  /** A declared append target authorises exactly one event kind. */
  lemma AppendTargetInjective(a: Kind, b: Kind)
    requires AppendTarget(a) == AppendTarget(b)
    ensures a == b
  {
    var s, t := AppendTarget(a), AppendTarget(b);
    assert s[4] == t[4] && s[5] == t[5] && s[6] == t[6] && s[7] == t[7];
    HexSplit(a);
    HexSplit(b);
    HexDigitInjective(a / 4096, b / 4096);
    HexDigitInjective(a / 256 % 16, b / 256 % 16);
    HexDigitInjective(a / 16 % 16, b / 16 % 16);
    HexDigitInjective(a % 16, b % 16);
  }

  // The value a lower-case hexadecimal digit stands for.
  function HexValue(c: char): int {
    if '0' <= c <= '9' then c as int - '0' as int else c as int - 'a' as int + 10
  }

  /** The target spells its kind: `evt.` and four hexadecimal digits that read back as it. */
  lemma AppendTargetSpells(kind: Kind)
    ensures var t := AppendTarget(kind);
            && |t| == 8 && t[..4] == "evt."
            && kind == 4096 * HexValue(t[4]) + 256 * HexValue(t[5]) + 16 * HexValue(t[6]) + HexValue(t[7])
  {
    HexSplit(kind);
    HexDigitReads(kind / 4096);
    HexDigitReads(kind / 256 % 16);
    HexDigitReads(kind / 16 % 16);
    HexDigitReads(kind % 16);
  }

  lemma HexDigitReads(n: nat)
    requires n < 16
    ensures HexValue(HexDigit(n)) == n
  {
  }

  // ----- Builders and recorders -----

  function Elements(s: seq<string>): set<string> { set x | x in s }

  // Insert a target at its sorted position unless it is present. Rust finds the position
  // by binary search, whose answer is specified only for sorted lists; every list here
  // starts empty and stays sorted.
  function InsertTarget(targets: seq<string>, target: string): (r: seq<string>)
    ensures Elements(r) == Elements(targets) + {target}
  {
    if targets == [] then [target]
    else if targets[0] == target then targets
    else if StrLe(target, targets[0]) then [target] + targets
    else
      var rest := InsertTarget(targets[1..], target);
      assert Elements(targets) == {targets[0]} + Elements(targets[1..]);
      assert Elements([targets[0]] + rest) == {targets[0]} + Elements(rest);
      [targets[0]] + rest
  }

  lemma {:induction false} InsertTargetSorted(targets: seq<string>, target: string)
    requires StrictlySorted(StrLe, targets)
    ensures StrictlySorted(StrLe, InsertTarget(targets, target))
  {
    if targets != [] && targets[0] != target {
      LexTotal(CharLe, target, targets[0]);
      if StrLe(target, targets[0]) {
        forall j | 0 <= j < |targets| ensures StrLe(target, targets[j]) && target != targets[j] {
          if j > 0 {
            LexTransitive(CharLe, target, targets[0], targets[j]);
            LexTotal(CharLe, targets[0], targets[j]);
          }
        }
        ConsSorted(target, targets);
      } else {
        InsertTargetSorted(targets[1..], target);
        var rest := InsertTarget(targets[1..], target);
        forall j | 0 <= j < |rest| ensures StrLe(targets[0], rest[j]) && targets[0] != rest[j] {
          assert rest[j] in Elements(rest);
          assert rest[j] == target || rest[j] in targets[1..];
        }
        ConsSorted(targets[0], rest);
      }
    }
  }

  lemma {:induction false} ConsSorted(x: string, rest: seq<string>)
    requires StrictlySorted(StrLe, rest)
    requires forall j :: 0 <= j < |rest| ==> StrLe(x, rest[j]) && x != rest[j]
    ensures StrictlySorted(StrLe, [x] + rest)
  {
  }

  ghost predicate SortedRow(row: Row) {
    && StrictlySorted(StrLe, row.reading) && StrictlySorted(StrLe, row.appending)
    && StrictlySorted(StrLe, row.querying) && StrictlySorted(StrLe, row.emitting)
    && StrictlySorted(StrLe, row.capabilities)
  }

  // Each effect axis in use brings its capability token.
  ghost predicate Capped(row: Row) {
    && (row.reading != [] ==> EVENT_READ_CAPABILITY in row.capabilities)
    && (row.appending != [] ==> EVENT_APPEND_CAPABILITY in row.capabilities)
    && (row.querying != [] ==> PROJECTION_QUERY_CAPABILITY in row.capabilities)
    && (row.emitting != [] ==> RECEIPT_EMIT_CAPABILITY in row.capabilities)
    && (row.hostControl ==> HOST_CONTROL_CAPABILITY in row.capabilities)
  }

  function WithToken(row: Row, token: string): Row {
    row.(capabilities := InsertTarget(row.capabilities, token))
  }

  // The builder steps of a row.
  datatype Declaration =
    | ReadsEvent(category: string)
    | AppendsEvent(target: string)
    | QueriesProjection(projection: string)
    | EmitsReceipt(receiptKind: string)
    | UsesHostControl
    | RequiresCapability(token: string)

  function Declare(row: Row, d: Declaration): Row {
    match d
    case ReadsEvent(x) => WithToken(row.(reading := InsertTarget(row.reading, x)), EVENT_READ_CAPABILITY)
    case AppendsEvent(x) => WithToken(row.(appending := InsertTarget(row.appending, x)), EVENT_APPEND_CAPABILITY)
    case QueriesProjection(x) => WithToken(row.(querying := InsertTarget(row.querying, x)), PROJECTION_QUERY_CAPABILITY)
    case EmitsReceipt(x) => WithToken(row.(emitting := InsertTarget(row.emitting, x)), RECEIPT_EMIT_CAPABILITY)
    case UsesHostControl => WithToken(row.(hostControl := true), HOST_CONTROL_CAPABILITY)
    case RequiresCapability(token) => WithToken(row, token)
  }

  function DeclareAll(row: Row, ds: seq<Declaration>): Row {
    if ds == [] then row else Declare(DeclareAll(row, ds[..|ds| - 1]), ds[|ds| - 1])
  }

  // What a handle records after the backend performed the effect: the same step a
  // builder takes to declare it.
  function DeclarationOf(e: Effect): Declaration {
    match e
    case AppendEvent(kind, _) => AppendsEvent(AppendTarget(kind))
    case ReadEvent(category) => ReadsEvent(category)
    case QueryProjection(projection) => QueriesProjection(projection)
    case EmitReceipt(kind) => EmitsReceipt(kind)
    case UseHostControl => UsesHostControl
  }

  function Record(row: Row, e: Effect): Row { Declare(row, DeclarationOf(e)) }

  function RecordAll(row: Row, es: seq<Effect>): Row {
    if es == [] then row else Record(RecordAll(row, es[..|es| - 1]), es[|es| - 1])
  }

  lemma DeclareKeepsOrder(row: Row, d: Declaration)
    requires SortedRow(row)
    ensures SortedRow(Declare(row, d))
  {
    match d {
      case ReadsEvent(x) => InsertTargetSorted(row.reading, x); InsertTargetSorted(row.capabilities, EVENT_READ_CAPABILITY);
      case AppendsEvent(x) => InsertTargetSorted(row.appending, x); InsertTargetSorted(row.capabilities, EVENT_APPEND_CAPABILITY);
      case QueriesProjection(x) => InsertTargetSorted(row.querying, x); InsertTargetSorted(row.capabilities, PROJECTION_QUERY_CAPABILITY);
      case EmitsReceipt(x) => InsertTargetSorted(row.emitting, x); InsertTargetSorted(row.capabilities, RECEIPT_EMIT_CAPABILITY);
      case UsesHostControl => InsertTargetSorted(row.capabilities, HOST_CONTROL_CAPABILITY);
      case RequiresCapability(token) => InsertTargetSorted(row.capabilities, token);
    }
  }

  lemma {:induction false} InsertTargetMembers(targets: seq<string>, target: string)
    ensures forall x :: x in InsertTarget(targets, target) <==> x in targets || x == target
    ensures InsertTarget(targets, target) != []
  {
    var r := InsertTarget(targets, target);
    forall x ensures x in r <==> x in targets || x == target {
      assert x in Elements(r) <==> x in Elements(targets) + {target};
    }
    assert target in r;
  }

  lemma DeclareKeepsCaps(row: Row, d: Declaration)
    requires Capped(row)
    ensures Capped(Declare(row, d))
  {
    match d {
      case ReadsEvent(_) => InsertTargetMembers(row.capabilities, EVENT_READ_CAPABILITY);
      case AppendsEvent(_) => InsertTargetMembers(row.capabilities, EVENT_APPEND_CAPABILITY);
      case QueriesProjection(_) => InsertTargetMembers(row.capabilities, PROJECTION_QUERY_CAPABILITY);
      case EmitsReceipt(_) => InsertTargetMembers(row.capabilities, RECEIPT_EMIT_CAPABILITY);
      case UsesHostControl => InsertTargetMembers(row.capabilities, HOST_CONTROL_CAPABILITY);
      case RequiresCapability(token) => InsertTargetMembers(row.capabilities, token);
    }
  }

  /** A row built from empty is strictly sorted on every axis and names the capability
      of every axis it uses. */
  lemma {:induction false} BuiltRows(ds: seq<Declaration>)
    ensures SortedRow(DeclareAll(EMPTY, ds)) && Capped(DeclareAll(EMPTY, ds))
  {
    if ds != [] {
      var n := |ds| - 1;
      BuiltRows(ds[..n]);
      DeclareKeepsOrder(DeclareAll(EMPTY, ds[..n]), ds[n]);
      DeclareKeepsCaps(DeclareAll(EMPTY, ds[..n]), ds[n]);
    }
  }

  // The target a declaration puts on each axis, and the token it brings.
  function ReadsOf(d: Declaration): Option<string> { if d.ReadsEvent? then Some(d.category) else None }

  function AppendsOf(d: Declaration): Option<string> { if d.AppendsEvent? then Some(d.target) else None }

  function QueriesOf(d: Declaration): Option<string> { if d.QueriesProjection? then Some(d.projection) else None }

  function EmitsOf(d: Declaration): Option<string> { if d.EmitsReceipt? then Some(d.receiptKind) else None }

  function BringsOf(d: Declaration): Option<string> {
    match d
    case ReadsEvent(_) => Some("event.read")
    case AppendsEvent(_) => Some("event.append")
    case QueriesProjection(_) => Some("projection.query")
    case EmitsReceipt(_) => Some("receipt.emit")
    case UsesHostControl => Some("host.control")
    case RequiresCapability(token) => Some(token)
  }

  // The list holds exactly what these declarations put on the axis.
  ghost predicate OnExactly(axis: Declaration -> Option<string>, ds: seq<Declaration>, targets: seq<string>) {
    forall x :: x in targets <==> exists d :: d in ds && axis(d) == Some(x)
  }

  ghost predicate SaysExactly(row: Row, ds: seq<Declaration>) {
    && OnExactly(ReadsOf, ds, row.reading) && OnExactly(AppendsOf, ds, row.appending)
    && OnExactly(QueriesOf, ds, row.querying) && OnExactly(EmitsOf, ds, row.emitting)
    && OnExactly(BringsOf, ds, row.capabilities)
    && (row.hostControl <==> UsesHostControl in ds)
  }

  lemma {:induction false} OnExactlyStep(axis: Declaration -> Option<string>, ds: seq<Declaration>, targets: seq<string>, d: Declaration, targets': seq<string>)
    requires OnExactly(axis, ds, targets)
    requires targets' == if axis(d).Some? then InsertTarget(targets, axis(d).value) else targets
    ensures OnExactly(axis, ds + [d], targets')
  {
    if axis(d).Some? { InsertTargetMembers(targets, axis(d).value); }
    forall x ensures x in targets' <==> exists e :: e in ds + [d] && axis(e) == Some(x) {
      assert x in targets <==> exists e :: e in ds && axis(e) == Some(x);
      assert d in ds + [d];
      assert forall e :: e in ds + [d] <==> e in ds || e == d;
    }
  }

  lemma SaysStep(row: Row, ds: seq<Declaration>, d: Declaration)
    requires SaysExactly(row, ds)
    ensures SaysExactly(Declare(row, d), ds + [d])
  {
    var row' := Declare(row, d);
    OnExactlyStep(ReadsOf, ds, row.reading, d, row'.reading);
    OnExactlyStep(AppendsOf, ds, row.appending, d, row'.appending);
    OnExactlyStep(QueriesOf, ds, row.querying, d, row'.querying);
    OnExactlyStep(EmitsOf, ds, row.emitting, d, row'.emitting);
    OnExactlyStep(BringsOf, ds, row.capabilities, d, row'.capabilities);
    assert UsesHostControl in ds + [d] <==> UsesHostControl in ds || d == UsesHostControl;
  }

  /** A built row says exactly what was declared: each target on its own axis, each axis's
      token and every required capability among the tokens, and nothing else. */
  lemma {:induction false} BuiltExactly(ds: seq<Declaration>)
    ensures SaysExactly(DeclareAll(EMPTY, ds), ds)
  {
    if ds != [] {
      var n := |ds| - 1;
      BuiltExactly(ds[..n]);
      SaysStep(DeclareAll(EMPTY, ds[..n]), ds[..n], ds[n]);
      assert ds[..n] + [ds[n]] == ds;
    }
  }

  /** So is a row recorded from empty. */
  lemma {:induction false} RecordedRows(es: seq<Effect>)
    ensures SortedRow(RecordAll(EMPTY, es)) && Capped(RecordAll(EMPTY, es))
  {
    if es != [] {
      var n := |es| - 1;
      RecordedRows(es[..n]);
      DeclareKeepsOrder(RecordAll(EMPTY, es[..n]), DeclarationOf(es[n]));
      DeclareKeepsCaps(RecordAll(EMPTY, es[..n]), DeclarationOf(es[n]));
    }
  }

  lemma {:induction false} RecordAllConcat(row: Row, es: seq<Effect>, fs: seq<Effect>)
    ensures RecordAll(row, es + fs) == RecordAll(RecordAll(row, es), fs)
  {
    if fs == [] {
      assert es + fs == es;
    } else {
      var n := |fs| - 1;
      RecordAllConcat(row, es, fs[..n]);
      assert (es + fs)[..|es + fs| - 1] == es + fs[..n];
    }
  }

  // ----- Authority -----

  // The row declares this effect.
  predicate Declares(row: Row, e: Effect) {
    match e
    case AppendEvent(kind, _) => AppendTarget(kind) in row.appending
    case ReadEvent(category) => category in row.reading
    case QueryProjection(projection) => projection in row.querying
    case EmitReceipt(kind) => kind in row.emitting
    case UseHostControl => row.hostControl
  }

  function TokenOf(e: Effect): string {
    match e
    case AppendEvent(_, _) => EVENT_APPEND_CAPABILITY
    case ReadEvent(_) => EVENT_READ_CAPABILITY
    case QueryProjection(_) => PROJECTION_QUERY_CAPABILITY
    case EmitReceipt(_) => RECEIPT_EMIT_CAPABILITY
    case UseHostControl => HOST_CONTROL_CAPABILITY
  }

  // The axes of a row: which target, if any, an effect puts on each.
  function ReadAxis(e: Effect): Option<string> { if e.ReadEvent? then Some(e.category) else None }

  function AppendAxis(e: Effect): Option<string> { if e.AppendEvent? then Some(AppendTarget(e.kind)) else None }

  function QueryAxis(e: Effect): Option<string> { if e.QueryProjection? then Some(e.projection) else None }

  function EmitAxis(e: Effect): Option<string> { if e.EmitReceipt? then Some(e.receiptKind) else None }

  function TokenAxis(e: Effect): Option<string> { Some(TokenOf(e)) }

  // The targets these effects put on an axis.
  function OnAxis(axis: Effect -> Option<string>, es: seq<Effect>): set<string> {
    if es == [] then {}
    else
      var target := axis(es[|es| - 1]);
      OnAxis(axis, es[..|es| - 1]) + (if target.Some? then {target.value} else {})
  }

  lemma {:induction false} OnAxisMember(axis: Effect -> Option<string>, es: seq<Effect>, x: string)
    ensures x in OnAxis(axis, es) <==> exists e :: e in es && axis(e) == Some(x)
  {
    if es != [] {
      var n := |es| - 1;
      OnAxisMember(axis, es[..n], x);
      assert forall e :: e in es <==> e in es[..n] || e == es[n];
    }
  }

  // The row says exactly which effects happened.
  ghost predicate Observes(row: Row, es: seq<Effect>) {
    && Elements(row.reading) == OnAxis(ReadAxis, es)
    && Elements(row.appending) == OnAxis(AppendAxis, es)
    && Elements(row.querying) == OnAxis(QueryAxis, es)
    && Elements(row.emitting) == OnAxis(EmitAxis, es)
    && Elements(row.capabilities) == OnAxis(TokenAxis, es)
    && (row.hostControl <==> UseHostControl in es)
  }

  lemma {:induction false} OnAxisStep(axis: Effect -> Option<string>, es: seq<Effect>, e: Effect)
    ensures OnAxis(axis, es + [e]) == OnAxis(axis, es) + (if axis(e).Some? then {axis(e).value} else {})
  {
    assert (es + [e])[..|es|] == es;
  }

  lemma ObservesStep(row: Row, es: seq<Effect>, e: Effect)
    requires Observes(row, es)
    ensures Observes(Record(row, e), es + [e])
  {
    OnAxisStep(ReadAxis, es, e);
    OnAxisStep(AppendAxis, es, e);
    OnAxisStep(QueryAxis, es, e);
    OnAxisStep(EmitAxis, es, e);
    OnAxisStep(TokenAxis, es, e);
    assert UseHostControl in es + [e] <==> UseHostControl in es || UseHostControl == e;
    match e {
      case AppendEvent(_, _) =>
      case ReadEvent(_) =>
      case QueryProjection(_) =>
      case EmitReceipt(_) =>
      case UseHostControl =>
    }
  }

  /** The observed row is exactly the set of effects that went through the handles. */
  lemma {:induction false} RecordedExactly(es: seq<Effect>)
    ensures Observes(RecordAll(EMPTY, es), es)
  {
    if es != [] {
      var n := |es| - 1;
      RecordedExactly(es[..n]);
      ObservesStep(RecordAll(EMPTY, es[..n]), es[..n], es[n]);
      assert es[..n] + [es[n]] == es;
    }
  }

  datatype Violation = Violation(field: string, target: string)

  function FirstMissing(field: string, observed: seq<string>, declared: seq<string>): (v: Option<Violation>)
    ensures v.None? <==> forall x :: x in observed ==> x in declared
  {
    if observed == [] then None
    else if observed[0] !in declared then Some(Violation(field, observed[0]))
    else FirstMissing(field, observed[1..], declared)
  }

  function OrElse(v: Option<Violation>, next: Option<Violation>): Option<Violation> { if v.Some? then v else next }

  function FirstViolation(observed: Row, declared: Row): Option<Violation> {
    OrElse(FirstMissing("reads_events", observed.reading, declared.reading),
    OrElse(FirstMissing("appends_events", observed.appending, declared.appending),
    OrElse(FirstMissing("queries_projections", observed.querying, declared.querying),
    OrElse(FirstMissing("emits_receipts", observed.emitting, declared.emitting),
    OrElse(if observed.hostControl && !declared.hostControl then Some(Violation("uses_host_controls", "host")) else None,
           FirstMissing("requires_capabilities", observed.capabilities, declared.capabilities))))))
  }

  // The violation is the first target of `observed` that `declared` lacks.
  ghost predicate FirstOn(field: string, observed: seq<string>, declared: seq<string>, v: Violation) {
    && v.field == field
    && exists i :: 0 <= i < |observed| && v.target == observed[i] && observed[i] !in declared
                   && forall j :: 0 <= j < i ==> observed[j] in declared
  }

  ghost predicate AllIn(observed: seq<string>, declared: seq<string>) { forall x :: x in observed ==> x in declared }

  // The axes, in the order they are checked, up to the first with an undeclared target.
  ghost predicate Reported(o: Row, d: Row, v: Violation) {
    if !AllIn(o.reading, d.reading) then FirstOn("reads_events", o.reading, d.reading, v)
    else if !AllIn(o.appending, d.appending) then FirstOn("appends_events", o.appending, d.appending, v)
    else if !AllIn(o.querying, d.querying) then FirstOn("queries_projections", o.querying, d.querying, v)
    else if !AllIn(o.emitting, d.emitting) then FirstOn("emits_receipts", o.emitting, d.emitting, v)
    else if o.hostControl && !d.hostControl then v == Violation("uses_host_controls", "host")
    else FirstOn("requires_capabilities", o.capabilities, d.capabilities, v)
  }

  lemma {:induction false} FirstMissingIsFirst(field: string, observed: seq<string>, declared: seq<string>)
    ensures var v := FirstMissing(field, observed, declared);
            v.Some? ==> FirstOn(field, observed, declared, v.value)
  {
    if observed != [] && observed[0] in declared {
      FirstMissingIsFirst(field, observed[1..], declared);
      var v := FirstMissing(field, observed, declared);
      if v.Some? {
        var rest := observed[1..];
        var i :| 0 <= i < |rest| && v.value.target == rest[i] && rest[i] !in declared && forall j :: 0 <= j < i ==> rest[j] in declared;
        forall j | 0 <= j < i + 1 ensures observed[j] in declared { if j > 0 { assert rest[j - 1] in declared; } }
        assert observed[i + 1] == rest[i];
      }
    }
  }

  /** A violation names the axis and the target that were first found undeclared. */
  lemma {:induction false} ViolationNamed(observed: Row, declared: Row)
    ensures var v := FirstViolation(observed, declared);
            v.Some? ==> Reported(observed, declared, v.value)
  {
    FirstMissingIsFirst("reads_events", observed.reading, declared.reading);
    FirstMissingIsFirst("appends_events", observed.appending, declared.appending);
    FirstMissingIsFirst("queries_projections", observed.querying, declared.querying);
    FirstMissingIsFirst("emits_receipts", observed.emitting, declared.emitting);
    FirstMissingIsFirst("requires_capabilities", observed.capabilities, declared.capabilities);
  }

  ghost predicate Authorised(declared: Row, e: Effect) { Declares(declared, e) && TokenOf(e) in declared.capabilities }

  ghost predicate AllAuthorised(declared: Row, es: seq<Effect>) { forall e :: e in es ==> Authorised(declared, e) }

  lemma {:induction false} MissingExact(field: string, observed: seq<string>, declared: seq<string>)
    ensures FirstMissing(field, observed, declared).None? <==> Elements(observed) <= Elements(declared)
  {
    assert forall x :: x in Elements(observed) <==> x in observed;
    assert forall x :: x in Elements(declared) <==> x in declared;
  }

  // An observed axis lies within a declared list iff the target of each effect does.
  lemma {:induction false} AxisWithin(axis: Effect -> Option<string>, es: seq<Effect>, declared: set<string>)
    ensures OnAxis(axis, es) <= declared <==> forall e :: e in es && axis(e).Some? ==> axis(e).value in declared
  {
    if es != [] {
      var n := |es| - 1;
      AxisWithin(axis, es[..n], declared);
      assert forall e :: e in es <==> e in es[..n] || e == es[n];
    }
  }

  lemma {:induction false} AuthorisedByAxis(es: seq<Effect>, declared: Row)
    ensures AllAuthorised(declared, es) <==>
            && OnAxis(ReadAxis, es) <= Elements(declared.reading)
            && OnAxis(AppendAxis, es) <= Elements(declared.appending)
            && OnAxis(QueryAxis, es) <= Elements(declared.querying)
            && OnAxis(EmitAxis, es) <= Elements(declared.emitting)
            && OnAxis(TokenAxis, es) <= Elements(declared.capabilities)
            && (UseHostControl in es ==> declared.hostControl)
  {
    AxisWithin(ReadAxis, es, Elements(declared.reading));
    AxisWithin(AppendAxis, es, Elements(declared.appending));
    AxisWithin(QueryAxis, es, Elements(declared.querying));
    AxisWithin(EmitAxis, es, Elements(declared.emitting));
    AxisWithin(TokenAxis, es, Elements(declared.capabilities));
  }

  lemma ViolationByAxis(row: Row, declared: Row)
    ensures FirstViolation(row, declared).None? <==>
            && Elements(row.reading) <= Elements(declared.reading)
            && Elements(row.appending) <= Elements(declared.appending)
            && Elements(row.querying) <= Elements(declared.querying)
            && Elements(row.emitting) <= Elements(declared.emitting)
            && Elements(row.capabilities) <= Elements(declared.capabilities)
            && (row.hostControl ==> declared.hostControl)
  {
    MissingExact("reads_events", row.reading, declared.reading);
    MissingExact("appends_events", row.appending, declared.appending);
    MissingExact("queries_projections", row.querying, declared.querying);
    MissingExact("emits_receipts", row.emitting, declared.emitting);
    MissingExact("requires_capabilities", row.capabilities, declared.capabilities);
  }

  /** The check passes iff every effect that happened, and its capability token, is declared. */
  lemma {:induction false} ViolationExact(es: seq<Effect>, declared: Row)
    ensures FirstViolation(RecordAll(EMPTY, es), declared).None? <==> AllAuthorised(declared, es)
  {
    RecordedExactly(es);
    AuthorisedByAxis(es, declared);
    ViolationByAxis(RecordAll(EMPTY, es), declared);
  }

  // On this row the token check adds nothing: whatever happened, the whole check passes
  // iff every effect was declared.
  ghost predicate TargetsSuffice(declared: Row) {
    forall es :: FirstViolation(RecordAll(EMPTY, es), declared).None? <==> forall e :: e in es ==> Declares(declared, e)
  }

  // Each axis that declares an effect brings its token. An append target that no event
  // kind has declares no effect, so it needs no token.
  ghost predicate Tokened(row: Row) {
    && (row.reading != [] ==> EVENT_READ_CAPABILITY in row.capabilities)
    && ((exists k: Kind :: AppendTarget(k) in row.appending) ==> EVENT_APPEND_CAPABILITY in row.capabilities)
    && (row.querying != [] ==> PROJECTION_QUERY_CAPABILITY in row.capabilities)
    && (row.emitting != [] ==> RECEIPT_EMIT_CAPABILITY in row.capabilities)
    && (row.hostControl ==> HOST_CONTROL_CAPABILITY in row.capabilities)
  }

  lemma TokenedDeclares(row: Row, e: Effect)
    requires Tokened(row) && Declares(row, e)
    ensures TokenOf(e) in row.capabilities
  {
  }

  // Every row with an axis in use and without its token declares an effect it refuses.
  lemma UntokenedEffect(row: Row) returns (e: Effect)
    requires !Tokened(row)
    ensures Declares(row, e) && TokenOf(e) !in row.capabilities
  {
    if row.reading != [] && EVENT_READ_CAPABILITY !in row.capabilities {
      e := ReadEvent(row.reading[0]);
    } else if row.querying != [] && PROJECTION_QUERY_CAPABILITY !in row.capabilities {
      e := QueryProjection(row.querying[0]);
    } else if row.emitting != [] && RECEIPT_EMIT_CAPABILITY !in row.capabilities {
      e := EmitReceipt(row.emitting[0]);
    } else if row.hostControl && HOST_CONTROL_CAPABILITY !in row.capabilities {
      e := UseHostControl;
    } else {
      var k: Kind :| AppendTarget(k) in row.appending;
      e := AppendEvent(k, []);
    }
  }

  /** A declared effect whose token is missing is refused. */
  lemma {:induction false} TokenlessDeclarationRefused(declared: Row, e: Effect)
    requires Declares(declared, e) && TokenOf(e) !in declared.capabilities
    ensures FirstViolation(RecordAll(EMPTY, [e]), declared).Some?
  {
    ViolationExact([e], declared);
    assert e in [e] && !Authorised(declared, e);
  }

  /** Declared targets are enough exactly on the rows whose axes bring their tokens. */
  lemma {:induction false} CapabilityClosure(declared: Row)
    ensures TargetsSuffice(declared) <==> Tokened(declared)
  {
    if Tokened(declared) {
      forall es ensures FirstViolation(RecordAll(EMPTY, es), declared).None? <==> forall e :: e in es ==> Declares(declared, e) {
        ViolationExact(es, declared);
        forall e | e in es && Declares(declared, e) ensures Authorised(declared, e) { TokenedDeclares(declared, e); }
      }
    } else {
      var e := UntokenedEffect(declared);
      TokenlessDeclarationRefused(declared, e);
      assert forall x :: x in [e] ==> Declares(declared, x);
    }
  }

  /** Every row made by the builders is such a row. */
  lemma {:induction false} BuiltRowsSuffice(ds: seq<Declaration>)
    ensures TargetsSuffice(DeclareAll(EMPTY, ds))
  {
    BuiltRows(ds);
    CappedIsTokened(DeclareAll(EMPTY, ds));
    CapabilityClosure(DeclareAll(EMPTY, ds));
  }

  lemma CappedIsTokened(row: Row)
    requires Capped(row)
    ensures Tokened(row)
  {
  }

  /** A deserialized row need not be: it may name a read target and omit the capability. */
  lemma {:induction false} TokenlessExample(category: string)
    ensures !TargetsSuffice(EMPTY.(reading := [category]))
  {
    CapabilityClosure(EMPTY.(reading := [category]));
  }

  /** A row that declares one append target authorises exactly the kind it is the target of. */
  lemma AppendAuthorisesOneKind(row: Row, k0: Kind, k: Kind, payload: Bytes)
    requires row.appending == [AppendTarget(k0)]
    ensures Authorised(row, AppendEvent(k, payload)) <==> k == k0 && EVENT_APPEND_CAPABILITY in row.capabilities
  {
    if AppendTarget(k) == AppendTarget(k0) { AppendTargetInjective(k, k0); }
  }

  // ----- Descriptor validation -----

  predicate IsTargetChar(c: char) {
    'a' <= c <= 'z' || 'A' <= c <= 'Z' || '0' <= c <= '9' || c == '.' || c == '_' || c == '-'
  }

  // The token grammar operation names, schema references and effect targets share.
  predicate ValidToken(s: string, maxBytes: nat) {
    && s != "" && |s| <= maxBytes
    && (forall i :: 0 <= i < |s| ==> IsTargetChar(s[i]))
    && s[0] != '.' && s[|s| - 1] != '.'
    && (forall i :: 0 < i < |s| ==> !(s[i - 1] == '.' && s[i] == '.'))
  }

  predicate IsWordChar(c: char) {
    'a' <= c <= 'z' || 'A' <= c <= 'Z' || '0' <= c <= '9' || c == '_' || c == '-'
  }

  /** A valid token is a short enough list of non-empty words joined by single dots. */
  lemma {:induction false} TokenGrammar(s: string, maxBytes: nat)
    ensures ValidToken(s, maxBytes) <==> |s| <= maxBytes && NoneEmpty(Segments(s)) && PartsOf(IsWordChar, Segments(s))
  {
    DotsExact(s);
    SegmentChars(IsWordChar, s);
    if ValidToken(s, maxBytes) { assert OfChars(IsWordChar, s); }
    if OfChars(IsWordChar, s) { assert forall i :: 0 <= i < |s| ==> IsTargetChar(s[i]); }
  }

  predicate ValidTarget(s: string) { ValidToken(s, MAX_DESCRIPTOR_REF_BYTES) }

  predicate ValidTargets(row: Row) {
    && (forall x :: x in row.reading ==> ValidTarget(x)) && (forall x :: x in row.appending ==> ValidTarget(x))
    && (forall x :: x in row.querying ==> ValidTarget(x)) && (forall x :: x in row.emitting ==> ValidTarget(x))
    && (forall x :: x in row.capabilities ==> ValidTarget(x))
  }

  // `validate_for_descriptor`
  predicate ValidForDescriptor(row: Row, effect: EffectClass, receiptKind: string) {
    && ValidTargets(row)
    && match effect
       case Inspect => row.appending == [] && row.emitting == [] && !row.hostControl
       case Compute => row == EMPTY
       case Persist => row.appending != [] && row.emitting == [] && !row.hostControl
       case Emit => receiptKind in row.emitting && row.appending == [] && !row.hostControl
       case Control => row.hostControl
  }

  // What an operation of each class may do at all.
  predicate ClassAllows(effect: EffectClass, e: Effect) {
    match effect
    case Inspect => e.ReadEvent? || e.QueryProjection?
    case Compute => false
    case Persist => e.AppendEvent? || e.ReadEvent? || e.QueryProjection?
    case Emit => e.EmitReceipt? || e.ReadEvent? || e.QueryProjection?
    case Control => true
  }

  // An axis in use must be one the class allows.
  ghost predicate AxesAllowed(row: Row, effect: EffectClass) {
    && (row.reading != [] ==> ClassAllows(effect, ReadEvent("")))
    && (row.appending != [] ==> ClassAllows(effect, AppendEvent(0, [])))
    && (row.querying != [] ==> ClassAllows(effect, QueryProjection("")))
    && (row.emitting != [] ==> ClassAllows(effect, EmitReceipt("")))
    && (row.hostControl ==> ClassAllows(effect, UseHostControl))
  }

  // What a class demands of its row: to persist something, to emit its own receipt, to
  // control the host; a computation may not even require a capability.
  ghost predicate Demanded(row: Row, effect: EffectClass, receiptKind: string) {
    && (effect == Persist ==> row.appending != [])
    && (effect == Emit ==> receiptKind in row.emitting)
    && (effect == Control ==> row.hostControl)
    && (effect == Compute ==> row.capabilities == [])
  }

  function AllTargets(row: Row): seq<string> {
    row.reading + row.appending + row.querying + row.emitting + row.capabilities
  }

  lemma {:induction false} ValidTargetsExact(row: Row)
    ensures ValidTargets(row) <==> forall x :: x in AllTargets(row) ==> ValidToken(x, 256)
  {
    assert forall x :: x in AllTargets(row) <==>
      x in row.reading || x in row.appending || x in row.querying || x in row.emitting || x in row.capabilities;
  }

  /** A row is accepted for a class iff its targets are well formed, it uses only axes the
      class allows, and it declares what the class demands. */
  lemma ValidRowsExact(row: Row, effect: EffectClass, receiptKind: string)
    ensures ValidForDescriptor(row, effect, receiptKind) <==>
            && (forall x :: x in AllTargets(row) ==> ValidToken(x, 256))
            && AxesAllowed(row, effect) && Demanded(row, effect, receiptKind)
  {
    ValidTargetsExact(row);
    match effect {
      case Inspect => case Compute => case Persist => case Emit => case Control =>
    }
  }

  /** A valid descriptor declares nothing its class forbids. */
  lemma DeclaredWithinClass(row: Row, effect: EffectClass, receiptKind: string, e: Effect)
    requires ValidForDescriptor(row, effect, receiptKind) && Declares(row, e)
    ensures ClassAllows(effect, e)
  {
    match effect {
      case Inspect => case Compute => case Persist => case Emit => case Control =>
    }
  }
}
