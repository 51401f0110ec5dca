/**
 The reservation ledger: transitions are put in (sequence, id) order by a stable sort
 and applied one by one to a ledger of entries, each step either changing one entry or
 adding one finding.
 */
module Reservation {
  import opened Sorting
  import opened Evidence

  type Id = Hash

  datatype SubjectRef = SubjectRef(namespace: nat, keyBytes: Bytes)

  datatype CauseRef = CauseRef(lane: nat, opaqueKey: Bytes)

  datatype Transition = Transition(
    schemaVersion: nat,
    sequence: nat,
    id: Id,
    op: nat,
    units: nat,
    subject: Option<SubjectRef>,
    causes: seq<CauseRef>)

  datatype Entry = Entry(id: Id, subject: SubjectRef, units: nat, state: nat, openedAt: nat)

  datatype Finding =
    | InvalidTransition(id: Id, fromState: nat, op: nat, reason: nat)
    | UnsupportedTransitionSchemaVersion(id: Id, observed: nat, expected: nat)

  type Ledger = map<Id, Entry>

  const RESERVATION_LEDGER_REPORT_SCHEMA_VERSION := 1
  const RESERVATION_TRANSITION_SCHEMA_VERSION := 1

  const STATE_RESERVED := 0
  const STATE_COMMITTED := 1
  const STATE_REFUNDED := 2
  const STATE_EXPIRED := 3
  const STATE_ORPHANED := 4

  const OP_RESERVE := 0
  const OP_COMMIT := 1
  const OP_REFUND := 2
  const OP_EXPIRE := 3
  const OP_ORPHAN := 4

  const REASON_DOUBLE_COMMIT := 1
  const REASON_COMMIT_WITHOUT_RESERVE := 2
  const REASON_REFUND_INVALID_STATE := 3
  const REASON_REFUND_AFTER_COMMIT := 4
  const REASON_EXPIRE_INVALID_STATE := 5
  const REASON_ORPHAN_INVALID_STATE := 6
  const REASON_DUPLICATE_RESERVE := 7
  const REASON_RESERVE_INVALID_SUBJECT_OR_UNITS := 8
  const REASON_TRANSITION_ON_TERMINAL := 9

  // The state reported when there is no entry.
  const U32_MAX := 0xffff_ffff

  // ----- Normalization -----

  predicate CauseLe(a: CauseRef, b: CauseRef) {
    if a.lane != b.lane then a.lane < b.lane else BytesLe(a.opaqueKey, b.opaqueKey)
  }

  function NormalizeTransition(t: Transition): (r: Transition)
    ensures r.(causes := t.causes) == t
  {
    t.(causes := Sort(CauseLe, t.causes))
  }

  predicate TransitionLe(a: Transition, b: Transition) {
    if a.sequence != b.sequence then a.sequence < b.sequence else a.id <= b.id
  }

  lemma TransitionPreorder()
    ensures TotalPreorder(TransitionLe)
  {
  }

  function NormalizeAll(ts: seq<Transition>): (r: seq<Transition>)
    ensures |r| == |ts|
  {
    if ts == [] then [] else [NormalizeTransition(ts[0])] + NormalizeAll(ts[1..])
  }

  // Transitions in the order they apply, each with its causes sorted.
  function NormalizeList(ts: seq<Transition>): seq<Transition> { Sort(TransitionLe, NormalizeAll(ts)) }

  // Causes ascend by lane, then by key bytes.
  ghost predicate CausesAscend(causes: seq<CauseRef>) {
    forall i, j :: 0 <= i < j < |causes| ==>
      causes[i].lane < causes[j].lane
      || (causes[i].lane == causes[j].lane && BytesLe(causes[i].opaqueKey, causes[j].opaqueKey))
  }

  /** Normalizing a transition puts its causes in order and touches nothing else. */
  lemma NormalizedCauses(t: Transition)
    ensures CausesAscend(NormalizeTransition(t).causes)
    ensures multiset(NormalizeTransition(t).causes) == multiset(t.causes)
    ensures NormalizeTransition(t).(causes := []) == t.(causes := [])
  {
    BytesTotalOrder();
    SortSorts(CauseLe, t.causes);
  }

  lemma {:induction false} NormalizeAllAt(ts: seq<Transition>, k: nat)
    requires k < |ts|
    ensures NormalizeAll(ts)[k] == NormalizeTransition(ts[k])
  {
    if k > 0 { NormalizeAllAt(ts[1..], k - 1); }
  }

  // Transitions ascend by sequence, then by id.
  ghost predicate Ascend(log: seq<Transition>) {
    forall i, j :: 0 <= i < j < |log| ==>
      log[i].sequence < log[j].sequence || (log[i].sequence == log[j].sequence && log[i].id <= log[j].id)
  }

  // The transitions of one sequence and id, in the order they stand.
  function At(sequence: nat, id: Id, ts: seq<Transition>): seq<Transition> {
    Filter((t: Transition) => t.sequence == sequence && t.id == id, ts)
  }

  lemma {:induction false} AtOfNormalized(sequence: nat, id: Id, ts: seq<Transition>)
    ensures At(sequence, id, NormalizeAll(ts)) == NormalizeAll(At(sequence, id, ts))
  {
    if ts != [] {
      AtOfNormalized(sequence, id, ts[1..]);
      assert NormalizeAll(ts)[1..] == NormalizeAll(ts[1..]);
    }
  }

  /** The log ascends by sequence and then id, holds the normalized transitions and no
      others, and keeps the given order of those with equal sequence and id. */
  lemma {:induction false} LogInOrder(ts: seq<Transition>)
    ensures Ascend(NormalizeList(ts))
    ensures multiset(NormalizeList(ts)) == multiset(NormalizeAll(ts))
    ensures forall sequence, id :: At(sequence, id, NormalizeList(ts)) == NormalizeAll(At(sequence, id, ts))
  {
    TransitionPreorder();
    SortSorts(TransitionLe, NormalizeAll(ts));
    forall sequence, id ensures At(sequence, id, NormalizeList(ts)) == NormalizeAll(At(sequence, id, ts)) {
      TiesKeepOrder(sequence, id, ts);
    }
  }

  lemma {:induction false} TiesKeepOrder(sequence: nat, id: Id, ts: seq<Transition>)
    ensures At(sequence, id, NormalizeList(ts)) == NormalizeAll(At(sequence, id, ts))
  {
    TransitionPreorder();
    FilterSort(TransitionLe, (t: Transition) => t.sequence == sequence && t.id == id, NormalizeAll(ts));
    AtOfNormalized(sequence, id, ts);
    TiesAreSorted(sequence, id, NormalizeAll(ts));
    SortFixed(TransitionLe, At(sequence, id, NormalizeAll(ts)));
  }

  lemma {:induction false} TiesAreSorted(sequence: nat, id: Id, ts: seq<Transition>)
    ensures Sorted(TransitionLe, At(sequence, id, ts))
  {
    var same := At(sequence, id, ts);
    FilterMembers((t: Transition) => t.sequence == sequence && t.id == id, ts);
    forall i, j | 0 <= i < j < |same| ensures TransitionLe(same[i], same[j]) { assert same[i] in same && same[j] in same; }
  }

  // ----- One step -----

  // A transition's effect depends only on its own entry: it changes that entry, or it
  // leaves everything alone and yields a finding.
  datatype Step = Accepted(entry: Entry) | Refused(finding: Finding)

  function StepEntry(before: Option<Entry>, t: Transition): Step {
    if t.schemaVersion != RESERVATION_TRANSITION_SCHEMA_VERSION then
      Refused(UnsupportedTransitionSchemaVersion(t.id, t.schemaVersion, RESERVATION_TRANSITION_SCHEMA_VERSION))
    else if t.op == OP_RESERVE then
      if before.Some? then Refused(InvalidTransition(t.id, before.value.state, t.op, REASON_DUPLICATE_RESERVE))
      else if t.subject.None? || t.units == 0 then
        Refused(InvalidTransition(t.id, U32_MAX, t.op, REASON_RESERVE_INVALID_SUBJECT_OR_UNITS))
      else Accepted(Entry(t.id, t.subject.value, t.units, STATE_RESERVED, t.sequence))
    else if OP_COMMIT <= t.op <= OP_ORPHAN then
      if before.None? then Refused(InvalidTransition(t.id, U32_MAX, t.op, MissingReason(t.op)))
      else if before.value.state == STATE_RESERVED then Accepted(before.value.(state := Lane(t.op)))
      else Refused(InvalidTransition(t.id, before.value.state, t.op, TerminalReason(t.op, before.value.state)))
    else Refused(InvalidTransition(t.id, U32_MAX, t.op, REASON_TRANSITION_ON_TERMINAL))
  }

  // The lane a closing operation moves a reserved entry to.
  function Lane(op: nat): nat {
    if op == OP_COMMIT then STATE_COMMITTED
    else if op == OP_REFUND then STATE_REFUNDED
    else if op == OP_EXPIRE then STATE_EXPIRED
    else STATE_ORPHANED
  }

  function MissingReason(op: nat): nat {
    if op == OP_COMMIT then REASON_COMMIT_WITHOUT_RESERVE
    else if op == OP_REFUND then REASON_REFUND_INVALID_STATE
    else if op == OP_EXPIRE then REASON_EXPIRE_INVALID_STATE
    else REASON_ORPHAN_INVALID_STATE
  }

  function TerminalReason(op: nat, state: nat): nat {
    if op == OP_COMMIT then (if state == STATE_COMMITTED then REASON_DOUBLE_COMMIT else REASON_TRANSITION_ON_TERMINAL)
    else if op == OP_REFUND then (if state == STATE_COMMITTED then REASON_REFUND_AFTER_COMMIT else REASON_REFUND_INVALID_STATE)
    else if op == OP_EXPIRE then REASON_EXPIRE_INVALID_STATE
    else REASON_ORPHAN_INVALID_STATE
  }

  // ----- A run -----

  datatype Run = Run(ledger: Ledger, findings: seq<Finding>)

  function Lookup(ledger: Ledger, id: Id): Option<Entry> { if id in ledger then Some(ledger[id]) else None }

  function ApplyStep(r: Run, t: Transition): Run {
    match StepEntry(Lookup(r.ledger, t.id), t)
    case Accepted(e) => Run(r.ledger[t.id := e], r.findings)
    case Refused(f) => Run(r.ledger, r.findings + [f])
  }

  // The run of a normalized list.
  function RunAll(ts: seq<Transition>): Run {
    if ts == [] then Run(map[], [])
    else ApplyStep(RunAll(ts[..|ts| - 1]), ts[|ts| - 1])
  }

  function FindingKey(f: Finding): seq<nat> {
    match f
    case InvalidTransition(id, from, op, reason) => [0, id, from, op, reason]
    case UnsupportedTransitionSchemaVersion(id, o, e) => [1, id, o, e]
  }

  predicate FindingLe(a: Finding, b: Finding) { BytesLe(FindingKey(a), FindingKey(b)) }

  datatype Report = Report(schemaVersion: nat, logDigest: Hash, entries: seq<Entry>, findings: seq<Finding>)

  // The ledger's entries in ascending id order.
  ghost function EntriesOf(ledger: Ledger): (es: seq<Entry>) {
    var ids := Ascending(HashLe, ledger.Keys);
    seq(|ids|, i requires 0 <= i < |ids| => ledger[ids[i]])
  }

  // The canonical ledger report; `digest` is the content hash of the normalized log.
  ghost function Simulate(digest: seq<Transition> -> Result<Hash, string>, ts: seq<Transition>): Result<Report, string> {
    var log := NormalizeList(ts);
    var run := RunAll(log);
    match digest(log)
    case Err(e) => Err(e)
    case Ok(h) =>
      Ok(Report(RESERVATION_LEDGER_REPORT_SCHEMA_VERSION, h, EntriesOf(run.ledger), Sort(FindingLe, run.findings)))
  }

  method NormalizeEach(ts: seq<Transition>) returns (r: seq<Transition>)
    ensures r == NormalizeAll(ts)
  {
    r := [];
    for k := 0 to |ts|
      invariant r + NormalizeAll(ts[k..]) == NormalizeAll(ts)
    {
      assert ts[k..][1..] == ts[k + 1..];
      assert r + ([NormalizeTransition(ts[k])] + NormalizeAll(ts[k + 1..]))
          == (r + [NormalizeTransition(ts[k])]) + NormalizeAll(ts[k + 1..]);
      r := r + [NormalizeTransition(ts[k])];
    }
  }

  // The body of the loop: one transition against the ledger.
  method ApplyTransition(ledger0: Ledger, findings0: seq<Finding>, t: Transition)
    returns (ledger: Ledger, findings: seq<Finding>)
    ensures Run(ledger, findings) == ApplyStep(Run(ledger0, findings0), t)
  {
    ledger, findings := ledger0, findings0;
    var id := t.id;
    if t.schemaVersion != RESERVATION_TRANSITION_SCHEMA_VERSION {
      findings := findings + [UnsupportedTransitionSchemaVersion(id, t.schemaVersion, RESERVATION_TRANSITION_SCHEMA_VERSION)];
      return;
    }
    match t.op {
      case 0 => // reserve
        if id in ledger {
          findings := findings + [InvalidTransition(id, ledger[id].state, t.op, REASON_DUPLICATE_RESERVE)];
        } else if t.subject.None? {
          findings := findings + [InvalidTransition(id, U32_MAX, t.op, REASON_RESERVE_INVALID_SUBJECT_OR_UNITS)];
        } else if t.units == 0 {
          findings := findings + [InvalidTransition(id, U32_MAX, t.op, REASON_RESERVE_INVALID_SUBJECT_OR_UNITS)];
        } else {
          ledger := ledger[id := Entry(id, t.subject.value, t.units, STATE_RESERVED, t.sequence)];
        }
      case 1 => // commit
        if id !in ledger {
          findings := findings + [InvalidTransition(id, U32_MAX, t.op, REASON_COMMIT_WITHOUT_RESERVE)];
        } else if ledger[id].state == STATE_RESERVED {
          ledger := ledger[id := ledger[id].(state := STATE_COMMITTED)];
        } else if ledger[id].state == STATE_COMMITTED {
          findings := findings + [InvalidTransition(id, ledger[id].state, t.op, REASON_DOUBLE_COMMIT)];
        } else {
          findings := findings + [InvalidTransition(id, ledger[id].state, t.op, REASON_TRANSITION_ON_TERMINAL)];
        }
      case 2 => // refund
        if id !in ledger {
          findings := findings + [InvalidTransition(id, U32_MAX, t.op, REASON_REFUND_INVALID_STATE)];
        } else if ledger[id].state == STATE_RESERVED {
          ledger := ledger[id := ledger[id].(state := STATE_REFUNDED)];
        } else if ledger[id].state == STATE_COMMITTED {
          findings := findings + [InvalidTransition(id, ledger[id].state, t.op, REASON_REFUND_AFTER_COMMIT)];
        } else {
          findings := findings + [InvalidTransition(id, ledger[id].state, t.op, REASON_REFUND_INVALID_STATE)];
        }
      case 3 => // expire
        if id !in ledger {
          findings := findings + [InvalidTransition(id, U32_MAX, t.op, REASON_EXPIRE_INVALID_STATE)];
        } else if ledger[id].state == STATE_RESERVED {
          ledger := ledger[id := ledger[id].(state := STATE_EXPIRED)];
        } else {
          findings := findings + [InvalidTransition(id, ledger[id].state, t.op, REASON_EXPIRE_INVALID_STATE)];
        }
      case 4 => // orphan
        if id !in ledger {
          findings := findings + [InvalidTransition(id, U32_MAX, t.op, REASON_ORPHAN_INVALID_STATE)];
        } else if ledger[id].state == STATE_RESERVED {
          ledger := ledger[id := ledger[id].(state := STATE_ORPHANED)];
        } else {
          findings := findings + [InvalidTransition(id, ledger[id].state, t.op, REASON_ORPHAN_INVALID_STATE)];
        }
      case _ =>
        findings := findings + [InvalidTransition(id, U32_MAX, t.op, REASON_TRANSITION_ON_TERMINAL)];
    }
  }

  method RunLedger(log: seq<Transition>) returns (ledger: Ledger, findings: seq<Finding>)
    ensures Run(ledger, findings) == RunAll(log)
  {
    ledger, findings := map[], [];
    for k := 0 to |log|
      invariant Run(ledger, findings) == RunAll(log[..k])
    {
      assert log[..k + 1][..k] == log[..k];
      ledger, findings := ApplyTransition(ledger, findings, log[k]);
    }
    assert log[..|log|] == log;
  }

  method ListEntries(ledger: Ledger) returns (entries: seq<Entry>)
    ensures entries == EntriesOf(ledger)
  {
    var ids := SortedElements(HashLe, ledger.Keys);
    entries := seq(|ids|, i requires 0 <= i < |ids| => ledger[ids[i]]);
  }

  method SimulateLedger(digest: seq<Transition> -> Result<Hash, string>, ts: seq<Transition>)
    returns (r: Result<Report, string>)
    ensures r == Simulate(digest, ts)
    ensures r.Ok? ==> ReportSays(digest, NormalizeList(ts), r.value)
    ensures r.Err? ==> digest(NormalizeList(ts)) == Err(r.error)
  {
    var log := NormalizeEach(ts);
    log := Sort(TransitionLe, log);
    var logDigest := digest(log);
    if logDigest.Err? { return Err(logDigest.error); }
    var ledger, findings := RunLedger(log);
    var entries := ListEntries(ledger);
    r := Ok(Report(RESERVATION_LEDGER_REPORT_SCHEMA_VERSION, logDigest.value, entries, Sort(FindingLe, findings)));
    ReportExact(digest, ts, r.value);
  }

  // ----- Permutation invariance -----

  lemma {:induction false} ClassOfNormalized(ts: seq<Transition>, k: Transition)
    ensures Class(TransitionLe, k, NormalizeAll(ts)) == NormalizeAll(Class(TransitionLe, k, ts))
  {
    if ts != [] {
      var n := NormalizeAll(ts);
      assert n[1..] == NormalizeAll(ts[1..]);
      ClassOfNormalized(ts[1..], k);
      assert SameKey(TransitionLe, k, n[0]) <==> SameKey(TransitionLe, k, ts[0]);
    }
  }

  /** Reordering the input without reordering transitions of equal (sequence, id)
      leaves the whole report, digest and all, unchanged. */
  lemma SimulateCanonical(digest: seq<Transition> -> Result<Hash, string>, ts: seq<Transition>, us: seq<Transition>)
    requires SameClasses(TransitionLe, ts, us)
    ensures Simulate(digest, ts) == Simulate(digest, us)
  {
    TransitionPreorder();
    forall k ensures Class(TransitionLe, k, NormalizeAll(ts)) == Class(TransitionLe, k, NormalizeAll(us)) {
      ClassOfNormalized(ts, k);
      ClassOfNormalized(us, k);
      assert Class(TransitionLe, k, ts) == Class(TransitionLe, k, us);
    }
    SortCanonical(TransitionLe, NormalizeAll(ts), NormalizeAll(us));
  }

  // ----- Non-interference -----

  // The transitions, or findings, of one reservation.
  function Own(id: Id, ts: seq<Transition>): seq<Transition> { Filter((t: Transition) => t.id == id, ts) }

  function OwnFindings(id: Id, fs: seq<Finding>): seq<Finding> { Filter((f: Finding) => f.id == id, fs) }

  lemma {:induction false} OwnOfNormalized(id: Id, ts: seq<Transition>)
    ensures Own(id, NormalizeAll(ts)) == NormalizeAll(Own(id, ts))
  {
    if ts != [] {
      var n := NormalizeAll(ts);
      assert n[1..] == NormalizeAll(ts[1..]);
      OwnOfNormalized(id, ts[1..]);
    }
  }

  lemma {:induction false} OwnAppend(id: Id, ts: seq<Transition>, t: Transition)
    ensures Own(id, ts + [t]) == if t.id == id then Own(id, ts) + [t] else Own(id, ts)
  {
    FilterConcat((x: Transition) => x.id == id, ts, [t]);
    assert [t][1..] == [];
  }

  lemma OwnFindingsAppend(id: Id, fs: seq<Finding>, f: Finding)
    ensures OwnFindings(id, fs + [f]) == if f.id == id then OwnFindings(id, fs) + [f] else OwnFindings(id, fs)
  {
    FilterConcat((x: Finding) => x.id == id, fs, [f]);
    assert [f][1..] == [];
  }

  // Running everyone's transitions treats one reservation as running only its own.
  lemma {:induction false} RunIgnoresOthers(id: Id, ts: seq<Transition>)
    ensures Lookup(RunAll(ts).ledger, id) == Lookup(RunAll(Own(id, ts)).ledger, id)
    ensures OwnFindings(id, RunAll(ts).findings) == OwnFindings(id, RunAll(Own(id, ts)).findings)
  {
    if ts != [] {
      var n := |ts| - 1;
      var t, rest := ts[n], ts[..n];
      assert ts == rest + [t];
      RunIgnoresOthers(id, rest);
      OwnAppend(id, rest, t);
      var r := RunAll(rest);
      StepFinding(Lookup(r.ledger, t.id), t);
      if StepEntry(Lookup(r.ledger, t.id), t).Refused? {
        OwnFindingsAppend(id, r.findings, StepEntry(Lookup(r.ledger, t.id), t).finding);
      }
      if t.id == id {
        var own := Own(id, rest);
        assert (own + [t])[..|own|] == own;
        var q := RunAll(own);
        assert RunAll(own + [t]) == ApplyStep(q, t);
        if StepEntry(Lookup(q.ledger, t.id), t).Refused? {
          OwnFindingsAppend(id, q.findings, StepEntry(Lookup(q.ledger, t.id), t).finding);
        }
      }
    }
  }

  // A step speaks only of its own reservation.
  lemma StepFinding(before: Option<Entry>, t: Transition)
    ensures StepEntry(before, t).Refused? ==> StepEntry(before, t).finding.id == t.id
  {
  }

  /** The fate of a reservation, and the findings about it, are those of simulating
      its own transitions alone. */
  lemma NonInterference(id: Id, ts: seq<Transition>)
    ensures Lookup(RunAll(NormalizeList(ts)).ledger, id) == Lookup(RunAll(NormalizeList(Own(id, ts))).ledger, id)
    ensures OwnFindings(id, RunAll(NormalizeList(ts)).findings)
            == OwnFindings(id, RunAll(NormalizeList(Own(id, ts))).findings)
  {
    RunIgnoresOthers(id, NormalizeList(ts));
    TransitionPreorder();
    FilterSort(TransitionLe, (t: Transition) => t.id == id, NormalizeAll(ts));
    OwnOfNormalized(id, ts);
    assert Own(id, NormalizeList(ts)) == NormalizeList(Own(id, ts));
  }

  // ----- The fate of a reservation, declaratively -----

  predicate Supported(t: Transition) { t.schemaVersion == RESERVATION_TRANSITION_SCHEMA_VERSION }

  // A well-formed reserve.
  predicate Opens(t: Transition) { Supported(t) && t.op == OP_RESERVE && t.subject.Some? && t.units > 0 }

  // A commit, refund, expire or orphan.
  predicate Closes(t: Transition) { Supported(t) && OP_COMMIT <= t.op <= OP_ORPHAN }

  // `i` is the position of the first element satisfying `p`.
  ghost predicate IsFirst(p: Transition -> bool, ts: seq<Transition>, i: int) {
    0 <= i < |ts| && p(ts[i]) && forall j :: 0 <= j < i ==> !p(ts[j])
  }

  // The entry a reservation opened at position `i` of its own transitions ends with:
  // the reserve's subject, units and sequence, in the lane of the first closing
  // operation after it, or still reserved if there is none.
  ghost predicate IsFate(own: seq<Transition>, i: int, e: Entry)
    requires 0 <= i < |own|
  {
    var t := own[i];
    && t.subject == Some(e.subject) && e.id == t.id && e.units == t.units && e.openedAt == t.sequence
    && EndsIn(own[i + 1..], e.state)
  }

  // The lane reached from reserved by these transitions.
  ghost predicate EndsIn(after: seq<Transition>, state: nat) {
    if exists x :: x in after && Closes(x)
    then exists j :: IsFirst(Closes, after, j) && LandsIn(after[j].op, state)
    else state == STATE_RESERVED
  }

  // Commits commit, refunds refund, expiries expire and orphanings orphan.
  ghost predicate LandsIn(op: nat, state: nat) {
    || (op == OP_COMMIT && state == STATE_COMMITTED)
    || (op == OP_REFUND && state == STATE_REFUNDED)
    || (op == OP_EXPIRE && state == STATE_EXPIRED)
    || (op == OP_ORPHAN && state == STATE_ORPHANED)
  }

  ghost predicate AllOf(id: Id, ts: seq<Transition>) { forall t :: t in ts ==> t.id == id }

  // What the run leaves for a reservation, given only its own transitions.
  ghost predicate FateHolds(id: Id, own: seq<Transition>, e: Option<Entry>) {
    && (e.None? <==> forall t :: t in own ==> !Opens(t))
    && (e.Some? ==> exists i :: IsFirst(Opens, own, i) && IsFate(own, i, e.value))
  }

  // Appending to a sequence keeps its first satisfying position, or creates one.
  lemma FirstAppend(p: Transition -> bool, ts: seq<Transition>, t: Transition, i: int)
    ensures IsFirst(p, ts + [t], i) <==>
            IsFirst(p, ts, i) || (i == |ts| && p(t) && forall x :: x in ts ==> !p(x))
  {
    if i == |ts| && (forall j :: 0 <= j < i ==> !p((ts + [t])[j])) {
      forall x | x in ts ensures !p(x) {
        var j :| 0 <= j < |ts| && ts[j] == x;
        assert (ts + [t])[j] == x;
      }
    }
    if IsFirst(p, ts + [t], i) && i < |ts| {
      forall j | 0 <= j < i ensures !p(ts[j]) { assert (ts + [t])[j] == ts[j]; }
    }
  }

  lemma EndsInStep(after: seq<Transition>, state: nat, t: Transition)
    requires EndsIn(after, state)
    ensures EndsIn(after + [t], if Closes(t) && state == STATE_RESERVED then Lane(t.op) else state)
    ensures state <= STATE_ORPHANED
  {
    var longer := after + [t];
    assert t in longer && forall x :: x in longer <==> x in after || x == t;
    if j :| IsFirst(Closes, after, j) && LandsIn(after[j].op, state) {
      FirstAppend(Closes, after, t, j);
      assert longer[j] == after[j] && IsFirst(Closes, longer, j);
      assert after[j] in longer;
    } else if Closes(t) {
      FirstAppend(Closes, after, t, |after|);
      assert IsFirst(Closes, longer, |after|) && longer[|after|] == t;
    }
  }

  // One more transition of a reservation that has been opened.
  lemma FateGrows(rest: seq<Transition>, t: Transition, i: int, e: Entry)
    requires IsFirst(Opens, rest, i) && IsFate(rest, i, e)
    ensures IsFirst(Opens, rest + [t], i)
    ensures IsFate(rest + [t], i, if Closes(t) && e.state == STATE_RESERVED then e.(state := Lane(t.op)) else e)
  {
    FirstAppend(Opens, rest, t, i);
    EndsInStep(rest[i + 1..], e.state, t);
    assert (rest + [t])[i + 1..] == rest[i + 1..] + [t];
  }

  // The first well-formed reserve of a reservation opens it.
  lemma FateBegins(rest: seq<Transition>, t: Transition, e: Entry)
    requires (forall x :: x in rest ==> !Opens(x)) && Opens(t)
    requires e == Entry(t.id, t.subject.value, t.units, STATE_RESERVED, t.sequence)
    ensures IsFirst(Opens, rest + [t], |rest|) && IsFate(rest + [t], |rest|, e)
  {
    FirstAppend(Opens, rest, t, |rest|);
    assert (rest + [t])[|rest| + 1..] == [];
  }

  lemma FateStep(id: Id, rest: seq<Transition>, t: Transition, e: Option<Entry>)
    requires FateHolds(id, rest, e) && t.id == id
    ensures FateHolds(id, rest + [t],
              match StepEntry(e, t) case Accepted(after) => Some(after) case Refused(_) => e)
  {
    assert forall x :: x in rest + [t] <==> x in rest || x == t;
    if e.Some? {
      var i :| IsFirst(Opens, rest, i) && IsFate(rest, i, e.value);
      FateGrows(rest, t, i, e.value);
      assert rest[i] in rest + [t];
    } else if Opens(t) {
      FateBegins(rest, t, StepEntry(e, t).entry);
    }
  }

  /** The declarative ledger: a reservation has an entry iff some transition of its own
      is a well-formed reserve; the entry is opened by the first such transition and
      sits in the lane of the first closing operation after it. */
  lemma {:induction false} FateOfOwn(id: Id, own: seq<Transition>)
    requires AllOf(id, own)
    ensures FateHolds(id, own, Lookup(RunAll(own).ledger, id))
  {
    if own != [] {
      var n := |own| - 1;
      FateOfOwn(id, own[..n]);
      FateStep(id, own[..n], own[n], Lookup(RunAll(own[..n]).ledger, id));
      assert own[..n] + [own[n]] == own;
    }
  }

  /** The same for a whole run: the final entry of each id, read off its own
      transitions in their applied order. */
  lemma FateOfRun(id: Id, ts: seq<Transition>)
    ensures FateHolds(id, Own(id, NormalizeList(ts)), Lookup(RunAll(NormalizeList(ts)).ledger, id))
  {
    RunIgnoresOthers(id, NormalizeList(ts));
    FilterMembers((t: Transition) => t.id == id, NormalizeList(ts));
    FateOfOwn(id, Own(id, NormalizeList(ts)));
  }

  // ----- The fate of a reservation, by sequence -----

  // `t` is one of the given transitions, of this reservation.
  ghost predicate OneOf(id: Id, ts: seq<Transition>, t: Transition) { t in ts && t.id == id }

  // The entry was opened by a well-formed reserve of least sequence.
  ghost predicate OpenedFirst(id: Id, ts: seq<Transition>, e: Entry) {
    && (exists t :: OneOf(id, ts, t) && Opens(t) && t.sequence == e.openedAt && t.units == e.units && t.subject == Some(e.subject))
    && (forall t :: OneOf(id, ts, t) && Opens(t) ==> e.openedAt <= t.sequence)
  }

  // It was closed by a closing operation of least sequence after that, if there was any.
  ghost predicate ClosedFirst(id: Id, ts: seq<Transition>, e: Entry) {
    if e.state == STATE_RESERVED then forall t :: OneOf(id, ts, t) && Closes(t) ==> t.sequence <= e.openedAt
    else exists t :: OneOf(id, ts, t) && Closes(t) && e.openedAt <= t.sequence && LandsIn(t.op, e.state)
                     && forall u :: OneOf(id, ts, u) && Closes(u) && e.openedAt < u.sequence ==> t.sequence <= u.sequence
  }

  lemma {:induction false} OwnAscends(id: Id, ts: seq<Transition>)
    ensures Ascend(Own(id, NormalizeList(ts)))
    ensures forall t :: t in Own(id, NormalizeList(ts)) <==> t in NormalizeAll(ts) && t.id == id
  {
    TransitionPreorder();
    FilterSort(TransitionLe, (t: Transition) => t.id == id, NormalizeAll(ts));
    FilterMembers((t: Transition) => t.id == id, NormalizeAll(ts));
    SortSorts(TransitionLe, Own(id, NormalizeAll(ts)));
    FilterMembers((t: Transition) => t.id == id, NormalizeList(ts));
    SortSorts(TransitionLe, NormalizeAll(ts));
  }

  // Normalization hides nothing a reservation's fate depends on.
  lemma {:induction false} SameButCauses(id: Id, ts: seq<Transition>, t: Transition)
    requires t in NormalizeAll(ts) && t.id == id
    ensures exists u :: OneOf(id, ts, u) && t.(causes := []) == u.(causes := [])
  {
    var k :| 0 <= k < |NormalizeAll(ts)| && NormalizeAll(ts)[k] == t;
    NormalizeAllAt(ts, k);
    assert OneOf(id, ts, ts[k]);
  }

  lemma {:induction false} NormalizedMember(ts: seq<Transition>, u: Transition)
    requires u in ts
    ensures NormalizeTransition(u) in NormalizeAll(ts)
  {
    var k :| 0 <= k < |ts| && ts[k] == u;
    NormalizeAllAt(ts, k);
  }

  lemma {:induction false} OpeningIsFirst(id: Id, ts: seq<Transition>, own: seq<Transition>, i: int, e: Entry)
    requires own == Own(id, NormalizeList(ts)) && IsFirst(Opens, own, i) && IsFate(own, i, e)
    ensures OpenedFirst(id, ts, e)
  {
    OwnAscends(id, ts);
    assert own[i] in own;
    SameButCauses(id, ts, own[i]);
    forall t | OneOf(id, ts, t) && Opens(t) ensures e.openedAt <= t.sequence {
      NormalizedMember(ts, t);
      var j :| 0 <= j < |own| && own[j] == NormalizeTransition(t);
      assert Opens(own[j]);
    }
  }

  // A closing operation of later sequence comes after the reserve in the log.
  lemma LaterCloses(id: Id, ts: seq<Transition>, own: seq<Transition>, i: int, t: Transition) returns (k: int)
    requires own == Own(id, NormalizeList(ts)) && 0 <= i < |own|
    requires OneOf(id, ts, t) && Closes(t) && own[i].sequence < t.sequence
    ensures i < k < |own| && own[k] == NormalizeTransition(t) && Closes(own[k])
  {
    OwnAscends(id, ts);
    NormalizedMember(ts, t);
    k :| 0 <= k < |own| && own[k] == NormalizeTransition(t);
  }

  // The closing operation at position `j` is of least sequence among the later ones.
  lemma ClosingIsLeast(id: Id, ts: seq<Transition>, own: seq<Transition>, i: int, j: int, u: Transition)
    requires own == Own(id, NormalizeList(ts)) && 0 <= i < j < |own| && (forall k :: i < k < j ==> !Closes(own[k]))
    requires OneOf(id, ts, u) && Closes(u) && own[i].sequence < u.sequence
    ensures own[j].sequence <= u.sequence
  {
    var k := LaterCloses(id, ts, own, i, u);
    OwnAscends(id, ts);
  }

  lemma ClosingIsFirst(id: Id, ts: seq<Transition>, own: seq<Transition>, i: int, e: Entry)
    requires own == Own(id, NormalizeList(ts)) && IsFirst(Opens, own, i) && IsFate(own, i, e)
    ensures ClosedFirst(id, ts, e)
  {
    var after := own[i + 1..];
    assert forall k :: i < k < |own| ==> after[k - i - 1] == own[k];
    if exists x :: x in after && Closes(x) {
      var j :| IsFirst(Closes, after, j) && LandsIn(after[j].op, e.state);
      forall k | i < k < i + 1 + j ensures !Closes(own[k]) { assert !Closes(after[k - i - 1]); }
      ClosedAt(id, ts, own, i, i + 1 + j, e);
    } else {
      forall k | i < k < |own| ensures !Closes(own[k]) { assert after[k - i - 1] in after; }
      forall t | OneOf(id, ts, t) && Closes(t) ensures t.sequence <= e.openedAt {
        if own[i].sequence < t.sequence { var k := LaterCloses(id, ts, own, i, t); }
      }
    }
  }

  lemma ClosedAt(id: Id, ts: seq<Transition>, own: seq<Transition>, i: int, j: int, e: Entry)
    requires own == Own(id, NormalizeList(ts)) && 0 <= i < j < |own| && e.openedAt == own[i].sequence
    requires Closes(own[j]) && LandsIn(own[j].op, e.state) && forall k :: i < k < j ==> !Closes(own[k])
    ensures ClosedFirst(id, ts, e)
  {
    OwnAscends(id, ts);
    assert own[j] in own;
    SameButCauses(id, ts, own[j]);
    var t :| OneOf(id, ts, t) && own[j].(causes := []) == t.(causes := []);
    forall u | OneOf(id, ts, u) && Closes(u) && e.openedAt < u.sequence ensures t.sequence <= u.sequence {
      ClosingIsLeast(id, ts, own, i, j, u);
    }
  }

  /** Over the transitions as given, in any order: a reservation has an entry iff it has a
      well-formed reserve; the one of least sequence opened it, and the closing operation
      of least sequence after that, if any, decided its lane. */
  lemma FateBySequence(id: Id, ts: seq<Transition>)
    ensures var e := Lookup(RunAll(NormalizeList(ts)).ledger, id);
            && (e.None? <==> forall t :: OneOf(id, ts, t) ==> !Opens(t))
            && (e.Some? ==> e.value.id == id && OpenedFirst(id, ts, e.value) && ClosedFirst(id, ts, e.value))
  {
    var own := Own(id, NormalizeList(ts));
    FateOfRun(id, ts);
    OwnAscends(id, ts);
    var e := Lookup(RunAll(NormalizeList(ts)).ledger, id);
    if e.Some? {
      var i :| IsFirst(Opens, own, i) && IsFate(own, i, e.value);
      assert own[i] in own;
      OpeningIsFirst(id, ts, own, i, e.value);
      ClosingIsFirst(id, ts, own, i, e.value);
    } else {
      forall t | OneOf(id, ts, t) ensures !Opens(t) {
        NormalizedMember(ts, t);
        assert NormalizeTransition(t) in own;
      }
    }
  }

  // ----- Findings -----

  // Why a transition is refused, given the entry of its reservation.
  ghost predicate Justifies(before: Option<Entry>, t: Transition, f: Finding) {
    match f
    case UnsupportedTransitionSchemaVersion(id, observed, expected) =>
      id == t.id && observed == t.schemaVersion && expected == 1 && observed != expected
    case InvalidTransition(id, from, op, reason) =>
      && id == t.id && op == t.op && t.schemaVersion == 1
      && from == (if before.Some? && t.op <= OP_ORPHAN then before.value.state else U32_MAX)
      && ReasonFor(if before.Some? then Some(before.value.state) else None, t, reason)
  }

  // Which reason code goes with which operation and state.
  ghost predicate ReasonFor(state: Option<nat>, t: Transition, reason: nat) {
    || (reason == REASON_DUPLICATE_RESERVE && t.op == OP_RESERVE && state.Some?)
    || (reason == REASON_RESERVE_INVALID_SUBJECT_OR_UNITS && t.op == OP_RESERVE && state.None? && (t.subject.None? || t.units == 0))
    || (reason == REASON_COMMIT_WITHOUT_RESERVE && t.op == OP_COMMIT && state.None?)
    || (reason == REASON_DOUBLE_COMMIT && t.op == OP_COMMIT && state == Some(STATE_COMMITTED))
    || (reason == REASON_REFUND_AFTER_COMMIT && t.op == OP_REFUND && state == Some(STATE_COMMITTED))
    || (reason == REASON_REFUND_INVALID_STATE && t.op == OP_REFUND && state != Some(STATE_RESERVED) && state != Some(STATE_COMMITTED))
    || (reason == REASON_EXPIRE_INVALID_STATE && t.op == OP_EXPIRE && state != Some(STATE_RESERVED))
    || (reason == REASON_ORPHAN_INVALID_STATE && t.op == OP_ORPHAN && state != Some(STATE_RESERVED))
    || (reason == REASON_TRANSITION_ON_TERMINAL
        && ((t.op == OP_COMMIT && state.Some? && state != Some(STATE_RESERVED) && state != Some(STATE_COMMITTED)) || t.op > OP_ORPHAN))
  }

  // What an accepted transition makes of the entry.
  ghost predicate Becomes(before: Option<Entry>, t: Transition, e: Entry) {
    || (before.None? && Opens(t) && e.id == t.id && t.subject == Some(e.subject) && e.units == t.units
        && e.state == STATE_RESERVED && e.openedAt == t.sequence)
    || (before.Some? && before.value.state == STATE_RESERVED && Closes(t) && LandsIn(t.op, e.state)
        && e == before.value.(state := e.state))
  }

  /** A transition is refused with a finding iff that finding is justified, and accepted
      into an entry iff it opens or closes the reservation that way. */
  lemma StepExact(before: Option<Entry>, t: Transition)
    ensures forall f :: StepEntry(before, t) == Refused(f) <==> Justifies(before, t, f)
    ensures forall e :: StepEntry(before, t) == Accepted(e) <==> Becomes(before, t, e)
  {
  }

  // The entry a transition finds when its turn comes.
  ghost function Found(ts: seq<Transition>, k: nat): Option<Entry>
    requires k < |ts|
  {
    Lookup(RunAll(ts[..k]).ledger, ts[k].id)
  }

  ghost predicate RefusedAt(ts: seq<Transition>, k: nat, f: Finding)
    requires k < |ts|
  {
    StepEntry(Found(ts, k), ts[k]) == Refused(f)
  }

  lemma {:induction false} FindingsRefused(ts: seq<Transition>)
    ensures forall f :: f in RunAll(ts).findings <==> exists k :: 0 <= k < |ts| && RefusedAt(ts, k, f)
  {
    if ts != [] {
      var n := |ts| - 1;
      var front := ts[..n];
      FindingsRefused(front);
      forall k, f | 0 <= k < n ensures RefusedAt(front, k, f) <==> RefusedAt(ts, k, f) { assert front[..k] == ts[..k]; }
      forall f ensures f in RunAll(ts).findings <==> exists k :: 0 <= k < |ts| && RefusedAt(ts, k, f) {
        assert f in RunAll(ts).findings <==> f in RunAll(front).findings || RefusedAt(ts, n, f);
      }
    }
  }

  /** The findings of a run are those justified at the turn of some transition. */
  lemma {:induction false} FindingsJustified(ts: seq<Transition>, f: Finding)
    ensures f in RunAll(ts).findings <==> exists k :: 0 <= k < |ts| && Justifies(Found(ts, k), ts[k], f)
  {
    FindingsRefused(ts);
    forall k | 0 <= k < |ts| ensures RefusedAt(ts, k, f) <==> Justifies(Found(ts, k), ts[k], f) {
      StepExact(Found(ts, k), ts[k]);
    }
  }

  // Invalid transitions come before unsupported ones, each by their fields.
  ghost predicate FindingBefore(a: Finding, b: Finding) {
    if a.InvalidTransition? != b.InvalidTransition? then a.InvalidTransition?
    else if a.id != b.id then a.id < b.id
    else if a.InvalidTransition? then
      if a.fromState != b.fromState then a.fromState < b.fromState
      else if a.op != b.op then a.op < b.op
      else a.reason <= b.reason
    else if a.observed != b.observed then a.observed < b.observed
    else a.expected <= b.expected
  }

  lemma {:induction false} FindingOrder(a: Finding, b: Finding)
    ensures FindingLe(a, b) <==> FindingBefore(a, b)
  {
    var k, l := FindingKey(a), FindingKey(b);
    BytesStep(k, l);
    BytesStep(k[1..], l[1..]);
    BytesStep(k[2..], l[2..]);
    BytesStep(k[3..], l[3..]);
    if |k| == 5 && |l| == 5 { BytesStep(k[4..], l[4..]); }
  }

  // What a report says about a run of the log.
  ghost predicate ReportSays(digest: seq<Transition> -> Result<Hash, string>, log: seq<Transition>, r: Report) {
    && r.schemaVersion == 1 && digest(log) == Ok(r.logDigest)
    && (forall i, j :: 0 <= i < j < |r.entries| ==> r.entries[i].id < r.entries[j].id)
    && (forall e: Entry :: e in r.entries <==> e.id in RunAll(log).ledger && RunAll(log).ledger[e.id] == e)
    && (forall i, j :: 0 <= i < j < |r.findings| ==> FindingBefore(r.findings[i], r.findings[j]))
    && multiset(r.findings) == multiset(RunAll(log).findings)
  }

  /** The report carries the digest of the log, the entries by ascending id, and the
      findings in order. */
  lemma ReportExact(digest: seq<Transition> -> Result<Hash, string>, ts: seq<Transition>, r: Report)
    requires Simulate(digest, ts) == Ok(r)
    ensures ReportSays(digest, NormalizeList(ts), r)
  {
    var run := RunAll(NormalizeList(ts));
    RunWellFiled(NormalizeList(ts));
    EntriesListed(run.ledger);
    FindingTotalOrder();
    SortSorts(FindingLe, run.findings);
    forall i, j | 0 <= i < j < |r.findings| ensures FindingBefore(r.findings[i], r.findings[j]) {
      FindingOrder(r.findings[i], r.findings[j]);
    }
  }

  lemma FindingTotalOrder()
    ensures TotalOrder(FindingLe)
  {
    forall a, b | FindingKey(a) == FindingKey(b) ensures a == b {
      var k, l := FindingKey(a), FindingKey(b);
      assert k[0] == l[0] && k[1] == l[1] && k[2] == l[2] && k[3] == l[3];
      assert |k| == 5 ==> k[4] == l[4];
    }
    KeyedTotalOrder(FindingLe, FindingKey);
  }

  // ----- Accounting -----

  // What one step may do to a ledger: nothing but its own entry changes, an existing
  // entry keeps its subject, units and opening sequence, and a closed one is final.
  ghost predicate Evolves(a: Ledger, b: Ledger) {
    forall id :: id in a ==>
      && id in b
      && b[id] == a[id].(state := b[id].state)
      && (a[id].state != STATE_RESERVED ==> b[id] == a[id])
  }

  /** Non-reserved lanes are absorbing, and an entry's subject, units and opening
      sequence never change, between any two points of a run. */
  lemma {:induction false} RunEvolves(ts: seq<Transition>, k: nat)
    requires k <= |ts|
    ensures Evolves(RunAll(ts[..k]).ledger, RunAll(ts).ledger)
  {
    if k == |ts| {
      assert ts[..k] == ts;
    } else {
      var n := |ts| - 1;
      assert ts[..n][..k] == ts[..k];
      RunEvolves(ts[..n], k);
    }
  }

  // The number of accepted steps.
  function AcceptedCount(ts: seq<Transition>): nat {
    if ts == [] then 0
    else
      var n := |ts| - 1;
      AcceptedCount(ts[..n]) + (if StepEntry(Lookup(RunAll(ts[..n]).ledger, ts[n].id), ts[n]).Accepted? then 1 else 0)
  }

  /** Every transition is an accepted step or exactly one finding. */
  lemma {:induction false} EveryTransitionAccounted(ts: seq<Transition>)
    ensures AcceptedCount(ts) + |RunAll(ts).findings| == |ts|
  {
    if ts != [] { EveryTransitionAccounted(ts[..|ts| - 1]); }
  }

  // Total units of the reserves that were accepted.
  function AcceptedUnits(ts: seq<Transition>): nat {
    if ts == [] then 0
    else
      var n := |ts| - 1;
      var step := StepEntry(Lookup(RunAll(ts[..n]).ledger, ts[n].id), ts[n]);
      AcceptedUnits(ts[..n]) + (if ts[n].op == OP_RESERVE && step.Accepted? then ts[n].units else 0)
  }

  // Total units held in a ledger.
  ghost function LedgerUnits(ledger: Ledger): nat {
    if ledger == map[] then 0
    else
      var id :| id in ledger;
      ledger[id].units + LedgerUnits(ledger - {id})
  }

  lemma {:induction false} LedgerUnitsRemove(ledger: Ledger, id: Id)
    requires id in ledger
    ensures LedgerUnits(ledger) == ledger[id].units + LedgerUnits(ledger - {id})
    decreases |ledger|
  {
    var k :| k in ledger && LedgerUnits(ledger) == ledger[k].units + LedgerUnits(ledger - {k});
    if k != id {
      LedgerUnitsRemove(ledger - {k}, id);
      LedgerUnitsRemove(ledger - {id}, k);
      assert ledger - {k} - {id} == ledger - {id} - {k};
    }
  }

  /** Conservation: the units a ledger holds are the units of the accepted reserves. */
  lemma {:induction false} UnitsConserved(ts: seq<Transition>)
    ensures LedgerUnits(RunAll(ts).ledger) == AcceptedUnits(ts)
  {
    if ts != [] {
      var n := |ts| - 1;
      UnitsConserved(ts[..n]);
      var before, after, id := RunAll(ts[..n]).ledger, RunAll(ts).ledger, ts[n].id;
      if before != after {
        LedgerUnitsRemove(after, id);
        assert after - {id} == before - {id};
        if id in before { LedgerUnitsRemove(before, id); } else { assert before - {id} == before; }
      }
    }
  }

  // ----- Reconciliation -----

  datatype Reconciliation = Reconciliation(
    reservedOpen: seq<Id>, expired: seq<Id>, orphaned: seq<Id>, committed: seq<Id>, refunded: seq<Id>)

  // The ids of the entries in one lane, in the order of the entries.
  function IdsIn(entries: seq<Entry>, state: nat): seq<Id> {
    if entries == [] then []
    else
      var n := |entries| - 1;
      IdsIn(entries[..n], state) + (if entries[n].state == state then [entries[n].id] else [])
  }

  method Reconcile(entries: seq<Entry>) returns (r: Reconciliation)
    ensures r == Reconciliation(
      Sort(HashLe, IdsIn(entries, STATE_RESERVED)), Sort(HashLe, IdsIn(entries, STATE_EXPIRED)),
      Sort(HashLe, IdsIn(entries, STATE_ORPHANED)), Sort(HashLe, IdsIn(entries, STATE_COMMITTED)),
      Sort(HashLe, IdsIn(entries, STATE_REFUNDED)))
  {
    var reserved: seq<Id>, expired: seq<Id>, orphaned: seq<Id> := [], [], [];
    var committed: seq<Id>, refunded: seq<Id> := [], [];
    for k := 0 to |entries|
      invariant reserved == IdsIn(entries[..k], STATE_RESERVED)
      invariant expired == IdsIn(entries[..k], STATE_EXPIRED)
      invariant orphaned == IdsIn(entries[..k], STATE_ORPHANED)
      invariant committed == IdsIn(entries[..k], STATE_COMMITTED)
      invariant refunded == IdsIn(entries[..k], STATE_REFUNDED)
    {
      assert entries[..k + 1][..k] == entries[..k];
      var e := entries[k];
      match e.state {
        case 0 => reserved := reserved + [e.id];
        case 3 => expired := expired + [e.id];
        case 4 => orphaned := orphaned + [e.id];
        case 1 => committed := committed + [e.id];
        case 2 => refunded := refunded + [e.id];
        case _ =>
      }
    }
    assert entries[..|entries|] == entries;
    r := Reconciliation(Sort(HashLe, reserved), Sort(HashLe, expired), Sort(HashLe, orphaned),
                        Sort(HashLe, committed), Sort(HashLe, refunded));
  }

  // A ledger a run can produce: entries filed under their own id, in a known lane.
  ghost predicate WellFiled(ledger: Ledger) {
    forall id :: id in ledger ==> ledger[id].id == id && ledger[id].state <= STATE_ORPHANED
  }

  lemma {:induction false} RunWellFiled(ts: seq<Transition>)
    ensures WellFiled(RunAll(ts).ledger)
  {
    if ts != [] { RunWellFiled(ts[..|ts| - 1]); }
  }

  lemma {:induction false} IdsInMembers(entries: seq<Entry>, state: nat)
    requires forall i, j :: 0 <= i < j < |entries| ==> entries[i].id != entries[j].id
    ensures forall id :: id in IdsIn(entries, state) <==> exists i :: 0 <= i < |entries| && entries[i].id == id && entries[i].state == state
    ensures forall i, j :: 0 <= i < j < |IdsIn(entries, state)| ==> IdsIn(entries, state)[i] != IdsIn(entries, state)[j]
  {
    if entries != [] {
      var n := |entries| - 1;
      IdsInMembers(entries[..n], state);
      var a, b := IdsIn(entries[..n], state), IdsIn(entries, state);
      forall k | 0 <= k < |a| ensures a[k] != entries[n].id {
        assert a[k] in a;
        var i :| 0 <= i < n && entries[..n][i].id == a[k] && entries[..n][i].state == state;
        assert entries[i].id == a[k];
      }
      forall id ensures id in b <==> exists i :: 0 <= i < |entries| && entries[i].id == id && entries[i].state == state {
        if id in a {
          var i :| 0 <= i < n && entries[..n][i].id == id && entries[..n][i].state == state;
          assert entries[i].id == id && entries[i].state == state;
        }
        if i :| 0 <= i < |entries| && entries[i].id == id && entries[i].state == state {
          if i < n { assert entries[..n][i] == entries[i]; }
        }
      }
    }
  }

  // One bucket of the reconciliation of a ledger.
  ghost function Bucket(ledger: Ledger, state: nat): seq<Id> { Sort(HashLe, IdsIn(EntriesOf(ledger), state)) }

  lemma EntriesListed(ledger: Ledger)
    requires WellFiled(ledger)
    ensures forall i, j :: 0 <= i < j < |EntriesOf(ledger)| ==> EntriesOf(ledger)[i].id < EntriesOf(ledger)[j].id
    ensures forall e: Entry :: e in EntriesOf(ledger) <==> e.id in ledger && ledger[e.id] == e
  {
    var es := EntriesOf(ledger);
    var ids := Ascending(HashLe, ledger.Keys);
    AscendingElements(HashLe, ledger.Keys);
    forall i | 0 <= i < |es| ensures es[i].id == ids[i] && es[i] == ledger[ids[i]] { assert ids[i] in ids; }
    forall e: Entry | e.id in ledger && ledger[e.id] == e ensures e in es {
      var i :| 0 <= i < |ids| && ids[i] == e.id;
      assert es[i] == e;
    }
  }

  /** A bucket holds exactly the ids in its lane, ascending and each once. */
  lemma BucketExact(ledger: Ledger, state: nat)
    requires WellFiled(ledger)
    ensures StrictlySorted(HashLe, Bucket(ledger, state))
    ensures forall i, j :: 0 <= i < j < |Bucket(ledger, state)| ==> Bucket(ledger, state)[i] < Bucket(ledger, state)[j]
    ensures forall id :: id in Bucket(ledger, state) <==> id in ledger && ledger[id].state == state
  {
    var es := EntriesOf(ledger);
    EntriesListed(ledger);
    IdsInMembers(es, state);
    SortDistinct(HashLe, IdsIn(es, state));
    forall id ensures id in IdsIn(es, state) <==> id in ledger && ledger[id].state == state {
      if id in ledger && ledger[id].state == state {
        assert ledger[id] in es;
      }
      if id in IdsIn(es, state) {
        var i :| 0 <= i < |es| && es[i].id == id && es[i].state == state;
        assert es[i] in es;
      }
    }
  }

  // Units of the listed ids.
  ghost function UnitsOf(ledger: Ledger, ids: seq<Id>): nat {
    if ids == [] then 0
    else (if ids[0] in ledger then ledger[ids[0]].units else 0) + UnitsOf(ledger, ids[1..])
  }

  ghost function InLane(ledger: Ledger, state: nat): Ledger { map id | id in ledger && ledger[id].state == state :: ledger[id] }

  lemma {:induction false} UnitsOfDistinct(ledger: Ledger, part: Ledger, ids: seq<Id>)
    requires forall i, j :: 0 <= i < j < |ids| ==> ids[i] != ids[j]
    requires forall id :: id in ids <==> id in part
    requires forall id :: id in part ==> id in ledger && part[id] == ledger[id]
    ensures UnitsOf(ledger, ids) == LedgerUnits(part)
  {
    if ids == [] {
      assert part == map[];
    } else {
      assert ids[0] in ids;
      LedgerUnitsRemove(part, ids[0]);
      UnitsOfDistinct(ledger, part - {ids[0]}, ids[1..]);
    }
  }

  lemma {:induction false} LedgerUnitsSplit(ledger: Ledger, part: set<Id>)
    requires part <= ledger.Keys
    ensures LedgerUnits(ledger) == LedgerUnits(map id | id in part :: ledger[id]) + LedgerUnits(ledger - part)
    decreases |part|
  {
    var chosen := map id | id in part :: ledger[id];
    if part == {} {
      assert ledger - part == ledger && chosen == map[];
    } else {
      var k :| k in part;
      LedgerUnitsRemove(ledger, k);
      LedgerUnitsSplit(ledger - {k}, part - {k});
      LedgerUnitsRemove(chosen, k);
      assert chosen - {k} == map id | id in part - {k} :: (ledger - {k})[id];
      assert ledger - {k} - (part - {k}) == ledger - part;
    }
  }

  // Units in lane `state` and below it add up lane by lane.
  ghost function LanesFrom(ledger: Ledger, state: nat): Ledger { map id | id in ledger && ledger[id].state >= state :: ledger[id] }

  lemma LaneStep(ledger: Ledger, state: nat)
    ensures LedgerUnits(LanesFrom(ledger, state)) == LedgerUnits(InLane(ledger, state)) + LedgerUnits(LanesFrom(ledger, state + 1))
  {
    var all, lane := LanesFrom(ledger, state), InLane(ledger, state);
    LedgerUnitsSplit(all, lane.Keys);
    assert (map id | id in lane.Keys :: all[id]) == lane;
    assert all - lane.Keys == LanesFrom(ledger, state + 1);
  }

  lemma {:induction false} BucketUnits(ledger: Ledger, state: nat)
    requires WellFiled(ledger)
    ensures UnitsOf(ledger, Bucket(ledger, state)) == LedgerUnits(InLane(ledger, state))
  {
    BucketExact(ledger, state);
    UnitsOfDistinct(ledger, InLane(ledger, state), Bucket(ledger, state));
  }

  /** The five buckets account for every unit of the accepted reserves. */
  lemma {:induction false} BucketsConserveUnits(ts: seq<Transition>)
    ensures var ledger := RunAll(ts).ledger;
            UnitsOf(ledger, Bucket(ledger, STATE_RESERVED)) + UnitsOf(ledger, Bucket(ledger, STATE_COMMITTED))
            + UnitsOf(ledger, Bucket(ledger, STATE_REFUNDED)) + UnitsOf(ledger, Bucket(ledger, STATE_EXPIRED))
            + UnitsOf(ledger, Bucket(ledger, STATE_ORPHANED)) == AcceptedUnits(ts)
  {
    var ledger := RunAll(ts).ledger;
    RunWellFiled(ts);
    UnitsConserved(ts);
    forall state | STATE_RESERVED <= state <= STATE_ORPHANED
      ensures UnitsOf(ledger, Bucket(ledger, state)) == LedgerUnits(InLane(ledger, state))
      ensures LedgerUnits(LanesFrom(ledger, state)) == LedgerUnits(InLane(ledger, state)) + LedgerUnits(LanesFrom(ledger, state + 1))
    {
      BucketUnits(ledger, state);
      LaneStep(ledger, state);
    }
    assert LanesFrom(ledger, STATE_RESERVED) == ledger;
    assert LanesFrom(ledger, STATE_ORPHANED + 1) == map[];
  }
}
