# A verified model of the batpak host stack

This project models the parts of the batpak workspace where a mistake would be hard to see,
and proves what each of them promises for all inputs, all runs and all mount orders.

| area | modules | source (under `bpk-lib/crates/`) |
|---|---|---|
| Dispatch runtime and effect authority | `EffectRow`, `Dispatch`, `DispatchSafety`, `CallRecords`, `ScriptAuthority`, `SyncCore` | `syncbat/src/core.rs`, `effect.rs`, `builder.rs` |
| Module host | `Schema`, `HostModule`, `ModuleBuilder`, `Composition`, `Mounting`, `Interface`, `Lowering`, `Host`, `HostBuilder`, `HostSafety` | `hostbat/src/*.rs` |
| Graph walks | `RuntimeScanner`, `Supersession` | `core/build_support/no_runtime_scanner.rs`, `core/src/registry.rs` |
| Ledgers, merges, attestation | `Reservation`, `Drift`, `RowVerification` (over `Registry`) | `core/src/reservation.rs`, `registry.rs`, `artifact.rs` |
| Calendar and identifier grammar | `Calendar`, `SubscriptionId`, `Dotted` | `core/build_support/build_receipts.rs`, `hostbat/src/subscription.rs`, `syncbat/src/operation_name.rs` |
| Order theory shared by all | `Sorting`, `Evidence` | `sort`, `sort_by`, `BTreeMap` and `BTreeSet` as the code uses them |

Check everything with `dafny verify dfyconfig.toml`.

## How to read it

- **Actors are arbitrary.** A guard or handler is any finite script of context calls that may
  branch on every outcome and differ from call to call; a sink or backend is any function of its
  own history. Results about `Dispatch.Checkout` therefore hold for every guard, handler, sink
  and backend.
- **Uninterpreted functions are parameters.** BLAKE3, the canonical encoder and decoder, the
  module seal and the signature check are function-valued parameters. Nothing assumes a digest is
  injective: order independence is proved on what is hashed.
- **Imperative code stays imperative.** `SyncCore.Runtime`, `SyncCore.CoreBuilder`,
  `ModuleBuilder.HostModuleBuilder`, `Composition.CompositionBuilder` and `HostBuilder.HostBuilder`
  are classes with the program's fields; walks, merges and ledgers are methods with loops. Each is
  proved against a specification function or predicate, and the results below are about those.
- **Digests** (`[u8; 32]`) are 256-bit numbers, whose order is the byte order of the arrays.
- **Lexicographic string order** is by character; for the identifiers compared here this is
  Rust's byte order, because UTF-8 preserves code-point order.

## Where the code and its comments disagree

The model follows the code.

- `syncbat/src/core.rs:132-133` calls the guard the only source of denials. The effect check at
  `core.rs:221-248` denies too. `DispatchSafety.AuthorityDecides` says when a call is denied, from
  what the guard decided and what the guard and handler had accepted.
  `ScriptAuthority.DenialForeseen` gives the condition on guard and handler, before the call,
  under which no backend can have the effect check deny it, and `GuardlessDenialExample` is a
  runtime with no guard that denies.
- `hostbat/src/composition.rs:128-131` says the composition digest never depends on mount order.
  The hashed view names the first declarer (`composition.rs:148`), so it does:
  `Composition.OwnershipOrder` proves the digest pre-image is the same for every order if and only
  if no schema key is declared by two modules, and `Mounting.SharedSchemaExample` gives a
  pair of modules that mount together and for which it is not.
- `core/build_support/no_runtime_scanner.rs:96-98` says a hit is recorded the first time a runtime
  is reached. The walk tests for a runtime before it consults `visited`, so there is one hit per
  edge into the runtime; `RuntimeScanner.ScanCount` counts them all,
  `ScanCountPerRuntime` those of one runtime, and `TwoHitsForOneRuntime` gives a graph with two.
- `syncbat/src/effect.rs:26-28` tells an operation to declare its append targets. A deserialized
  row can declare targets without their capability tokens, and then its effects are refused
  (`EffectRow.TokenlessDeclarationRefused`, with a row in `TokenlessExample`).
  `EffectRow.CapabilityClosure` proves that declared targets are enough if and only if each axis
  that can declare an effect brings its token; an append target that is no event kind's target
  (which `effect.rs:28-29` allows) declares no effect and needs none. Rows made by the builders
  always qualify (`EffectRow.BuiltRowsSuffice`).

## Model

| member | source | states |
|---|---|---|
| `Calendar.CivilRoundTrip` | bpk-lib/crates/core/build_support/build_receipts.rs:133-147 | For every day count, negative ones included, the result is a valid Gregorian date whose day number is that count. |
| `Calendar.CivilInverts` | bpk-lib/crates/core/build_support/build_receipts.rs:133-147 | For every valid date, converting its day number gives the date back. |
| `Calendar.CivilSteps` | bpk-lib/crates/core/build_support/build_receipts.rs:133-147 | The next day count gives the calendar successor of the date. |
| `Calendar.CivilStrictlyIncreasing` | bpk-lib/crates/core/build_support/build_receipts.rs:133-147 | Later day counts give later dates. |
| `Calendar.DayNumberSteps` | bpk-lib/crates/core/build_support/build_receipts.rs:131-147 | The reference day count advances by one from each valid date to its successor, so it counts days. |
| `Calendar.DayNumberMonotone` | bpk-lib/crates/core/build_support/build_receipts.rs:131-147 | The reference day count orders valid dates as the calendar does. |
| `Calendar.CivilFitsI64` | bpk-lib/crates/core/build_support/build_receipts.rs:133-147 | Once the first addition does not overflow, no later intermediate value leaves the 64-bit range, so the unbounded arithmetic is the machine's. |
| `Calendar.Iso8601RoundTrip` | bpk-lib/crates/core/build_support/build_receipts.rs:118-129 | For every second count the timestamp is valid and determines the second. |
| `RuntimeScanner.ByName` | bpk-lib/crates/core/build_support/no_runtime_scanner.rs:74-77 | The name map is the last-wins graph. |
| `RuntimeScanner.LastWins` | bpk-lib/crates/core/build_support/no_runtime_scanner.rs:74-77 | A node that no later node repeats is the one its name maps to. |
| `RuntimeScanner.Walk` | bpk-lib/crates/core/build_support/no_runtime_scanner.rs:99-125 | Terminates on any graph by shrinking the unvisited set, keeps every recorded hit sound, and settles every edge of every package it visits. |
| `RuntimeScanner.ScanResolvedGraph` | bpk-lib/crates/core/build_support/no_runtime_scanner.rs:73-93 | The hits are strictly sorted and are exactly the pulls of the search tree the walks built. |
| `RuntimeScanner.ScanWitness` | bpk-lib/crates/core/build_support/no_runtime_scanner.rs:99-125 | Every pull path is a simple path of production edges from a root to its runtime, with no runtime before the end. |
| `RuntimeScanner.ScanExact` | bpk-lib/crates/core/build_support/no_runtime_scanner.rs:73-125 | A runtime is reported iff some root reaches it through non-runtime packages, though all roots share one visited set. |
| `RuntimeScanner.ScanEmpty` | bpk-lib/crates/core/build_support/no_runtime_scanner.rs:64-73 | The report is empty iff no runtime is reachable at all. |
| `RuntimeScanner.ScanCount` | bpk-lib/crates/core/build_support/no_runtime_scanner.rs:81-125 | There is exactly one hit per runtime root and per edge from an exposed package into a runtime. |
| `RuntimeScanner.ScanCountPerRuntime` | bpk-lib/crates/core/build_support/no_runtime_scanner.rs:96-125 | Each runtime is reported once as a root, if it is one, and once for every exposed package that depends on it. |
| `RuntimeScanner.TwoHitsForOneRuntime` | bpk-lib/crates/core/build_support/no_runtime_scanner.rs:96-125 | Scanning three nodes of which two pull in one runtime reports it twice. |
| `RuntimeScanner.HitsInOrder` | bpk-lib/crates/core/build_support/no_runtime_scanner.rs:88-93 | The report ascends by package name in dictionary order, then by pull path compared name by name. |
| `Supersession.WalkForCycles` | bpk-lib/crates/core/src/registry.rs:360-381 | Each walk ends within the number of rows plus one steps and records nothing unless it runs into a cycle, from a tail or from a row on it; then it records the cycle edge into the first row of the walk that is on the cycle, and no other. |
| `Supersession.CycleEdges` | bpk-lib/crates/core/src/registry.rs:344-349 | Over all rows, exactly the edges on directed cycles are collected. |
| `Supersession.CyclePredecessorUnique` | bpk-lib/crates/core/src/registry.rs:360-381 | A row on a cycle has one predecessor on it, so one edge per walk is enough. |
| `Supersession.LastRowWins` | bpk-lib/crates/core/src/registry.rs:328-332 | The row an id stands for is its last row, the one no later row repeats. |
| `Supersession.PointerFindings` | bpk-lib/crates/core/src/registry.rs:333-342 | Dangling pointers and pointers of removed rows are reported exactly for the rows that have them, and once each when ids are unique. |
| `Supersession.DuplicateFindings` | bpk-lib/crates/core/src/registry.rs:323-327 | Exactly the adjacent repetitions are reported; none when ids are unique. |
| `Supersession.CycleFindings` | bpk-lib/crates/core/src/registry.rs:350-355 | Each collected edge is reported once. |
| `Supersession.DuplicatesAreAdjacent` | bpk-lib/crates/core/src/registry.rs:317-327 | On a sorted catalog, no adjacent repetition means all ids are unique, and conversely. |
| `Supersession.SupersessionFindings` | bpk-lib/crates/core/src/registry.rs:319-358 | For every catalog the findings are exactly those that hold, the cycle findings being exactly the edges on a directed cycle, in the order spelt out by `FindingOrder`; with unique ids each is reported once. |
| `Supersession.FindingOrder` | bpk-lib/crates/core/src/registry.rs:286-312 | Findings ascend by kind (dangling, removed, duplicate, cycle), then by their row ids. |
| `Drift.MergeSides` | bpk-lib/crates/core/src/registry.rs:147-195 | The two-cursor loop computes the recursive merge, on any input. |
| `Drift.MergeReports` | bpk-lib/crates/core/src/registry.rs:153-190 | On sides sorted by unique id, from any cursor pair on, the merge reports each remaining difference once. |
| `Drift.DriftFindings` | bpk-lib/crates/core/src/registry.rs:147-195 | For sides sorted by unique id the findings are exactly the set difference of the two maps (missing, extra, mismatched), each once, in the order spelt out by `FindingOrder`. |
| `Drift.FindingOrder` | bpk-lib/crates/core/src/registry.rs:105-124 | Findings ascend by kind (missing, extra, mismatch), then by row id and hashes. |
| `Drift.DriftEmpty` | bpk-lib/crates/core/src/registry.rs:147-195 | There is no drift iff the two maps are equal. |
| `Drift.DriftSwap` | bpk-lib/crates/core/src/registry.rs:147-195 | Swapping the sides swaps missing with extra and the hashes within each mismatch, and nothing else. |
| `Drift.SidesEqual` | bpk-lib/crates/core/src/registry.rs:141-195 | Two sorted sides with the same map are the same list, so no drift means equal inputs. |
| `RowVerification.VerifyEnvelope` | bpk-lib/crates/core/src/artifact.rs:170-198 | The envelope check reports the digest of the raw body bytes; an envelope hash that is the digest of the framed identity, which holds framing version 1, that body digest, the envelope's own schema version, time and note, and all its signatures and all its attestations, each list ascending; and, ascending, one finding for each signature refused over the raw bytes, and no other. An encoder's error is returned. |
| `RowVerification.PlaneExact` | bpk-lib/crates/core/src/artifact.rs:170-198 | The same of the specification. |
| `RowVerification.CheckSignatures` | bpk-lib/crates/core/src/artifact.rs:182-190 | A finding is collected iff some signature with its key id is refused with its reason over the raw body bytes. |
| `RowVerification.VerificationCanonical` | bpk-lib/crates/core/src/registry.rs:389-453 | The whole report is unchanged by permuting named digests, signatures or attestations. |
| `RowVerification.NormalizeIdempotent` | bpk-lib/crates/core/src/registry.rs:71-80 | Normalizing a body twice changes nothing more. |
| `RowVerification.PlanesShareBytes` | bpk-lib/crates/core/src/artifact.rs:124-198 | The row hash and the envelope's body hash are digests of the same bytes the signatures were checked over. |
| `RowVerification.VerificationExact` | bpk-lib/crates/core/src/registry.rs:389-453 | A report carries its schema version and the envelope check of the normalized body with all of the above; its structural findings are exactly the failed checks, each once, ascending by kind and fields. |
| `RowVerification.IdentityFrames` | bpk-lib/crates/core/src/artifact.rs:124-141 | The hashed identity frames the envelope: every field, and both attachment lists as ascending permutations. |
| `RowVerification.FramesUnique` | bpk-lib/crates/core/src/artifact.rs:124-141 | An envelope and a body digest have only one such identity. |
| `RowVerification.NormalizedBody` | bpk-lib/crates/core/src/registry.rs:71-80 | Normalizing keeps every field and only sorts the named digests, by name and then digest. |
| `RowVerification.VerificationFails` | bpk-lib/crates/core/src/registry.rs:389-453 | Verification fails iff the normalized body or the envelope's identity cannot be encoded, with that encoder's error. |
| `RowVerification.RowFindingOrder` | bpk-lib/crates/core/src/registry.rs:234-262 | Structural findings ascend by kind, then by their fields. |
| `RowVerification.StructuralExact` | bpk-lib/crates/core/src/registry.rs:408-446 | A structural finding is reported iff its check fails. |
| `RowVerification.HashMismatchAbsent` | bpk-lib/crates/core/src/registry.rs:389-453 | No row-hash finding iff the claimed hash is the envelope-plane body hash. |
| `Reservation.ApplyTransition` | bpk-lib/crates/core/src/reservation.rs:286-464 | The branching update of ledger and findings is one step of the specification. |
| `Reservation.RunLedger` | bpk-lib/crates/core/src/reservation.rs:278-464 | The loop runs the specification over the whole log. |
| `Reservation.SimulateLedger` | bpk-lib/crates/core/src/reservation.rs:278-476 | The imperative simulation returns the digest's error, or a report whose log is the input ascending by (sequence, id), whose entries are the ledger's, ascending by id, and whose findings are the log's refusals, ascending. |
| `Reservation.LogInOrder` | bpk-lib/crates/core/src/reservation.rs:230-243 | The log is a permutation of the normalized transitions, ascending by sequence and then id, and transitions that tie keep the order they came in. |
| `Reservation.NormalizedCauses` | bpk-lib/crates/core/src/reservation.rs:206-215 | Normalizing a transition only sorts its causes, by lane and then key. |
| `Reservation.StepExact` | bpk-lib/crates/core/src/reservation.rs:286-464 | From any entry, a transition of any kind either becomes the one entry the rules allow or is refused with the one finding and reason code that fits; never both. |
| `Reservation.FindingsJustified` | bpk-lib/crates/core/src/reservation.rs:286-464 | A finding is collected iff it is the refusal of some transition of the log, given the entry the log had left at that point. |
| `Reservation.FindingOrder` | bpk-lib/crates/core/src/reservation.rs:466-466 | Findings ascend by kind, then by their fields. |
| `Reservation.ReportExact` | bpk-lib/crates/core/src/reservation.rs:466-475 | The report holds its schema version, the digest of the log, every entry once ascending by id, and all the findings, ascending. |
| `Reservation.SimulateCanonical` | bpk-lib/crates/core/src/reservation.rs:230-476 | The whole report is unchanged by any reordering that keeps transitions of equal (sequence, id) in order. |
| `Reservation.NonInterference` | bpk-lib/crates/core/src/reservation.rs:278-476 | The final entry of an id and the findings about it are those of simulating its own transitions alone. |
| `Reservation.RunIgnoresOthers` | bpk-lib/crates/core/src/reservation.rs:278-464 | The same at every point of a run, before sorting. |
| `Reservation.FateOfRun` | bpk-lib/crates/core/src/reservation.rs:286-464 | The final entry of an id is read off its own transitions: opened by the first acceptable reserve, closed by the first acceptable closing after it. |
| `Reservation.FateBySequence` | bpk-lib/crates/core/src/reservation.rs:230-464 | Over the transitions as given, in any order: an id ends up with an entry iff one of its transitions is an acceptable reserve; the entry is that of an acceptable reserve of least sequence; its state is the one an acceptable closing of least sequence after it lands in, or reserved if none is later. |
| `Reservation.RunEvolves` | bpk-lib/crates/core/src/reservation.rs:286-464 | Between any two points of a run non-reserved states are absorbing and subject, units and opening sequence never change. |
| `Reservation.EveryTransitionAccounted` | bpk-lib/crates/core/src/reservation.rs:286-464 | Accepted steps plus findings equal the number of transitions. |
| `Reservation.UnitsConserved` | bpk-lib/crates/core/src/reservation.rs:286-464 | The units in the ledger are the units of the accepted reserves. |
| `Reservation.Reconcile` | bpk-lib/crates/core/src/reservation.rs:480-511 | Each bucket is the sorted list of ids in its state. |
| `Reservation.BucketExact` | bpk-lib/crates/core/src/reservation.rs:480-511 | A bucket holds exactly the ids in its state, strictly ascending, so the buckets partition the ids. |
| `Reservation.BucketsConserveUnits` | bpk-lib/crates/core/src/reservation.rs:480-511 | Units summed over the five buckets equal the units of the accepted reserves. |
| `Sorting.StrOrder` | bpk-lib/crates/hostbat/src/builder.rs:518-518 | Strings compare in dictionary order: the first differing character decides, and a proper prefix comes first. |
| `Sorting.BytesOrder` | bpk-lib/crates/core/src/artifact.rs:128-131 | So do byte strings and the field lists of derived orders. |
| `Sorting.PathOrder` | bpk-lib/crates/core/build_support/no_runtime_scanner.rs:88-93 | So do pull paths, name by name. |
| `SubscriptionId.ValidatorMatchesGrammar` | bpk-lib/crates/hostbat/src/subscription.rs:332-388 | For every string the validator accepts iff it has at most 128 characters, no doubled dot and some split that matches the stated grammar, which is written out without the validator's own character classes. |
| `SubscriptionId.SplitUnique` | bpk-lib/crates/hostbat/src/subscription.rs:345-372 | A string splits in at most one grammatical way, so the last `.v` is the only one that matters. |
| `EffectRow.AppendTargetInjective` | bpk-lib/crates/syncbat/src/effect.rs:31-33 | Different event kinds have different append targets. |
| `EffectRow.AppendTargetSpells` | bpk-lib/crates/syncbat/src/effect.rs:31-33 | The target of a kind is `evt.` and four lower-case hexadecimal digits whose value is the kind. |
| `EffectRow.AppendAuthorisesOneKind` | bpk-lib/crates/syncbat/src/effect.rs:24-33 | A row that declares one kind's append target authorises appends of that kind, given the token, and of no other. |
| `EffectRow.InsertTarget` | bpk-lib/crates/syncbat/src/effect.rs:673-678 | The list gains exactly the target. |
| `EffectRow.InsertTargetSorted` | bpk-lib/crates/syncbat/src/effect.rs:664-678 | A strictly sorted list stays strictly sorted. |
| `EffectRow.BuiltRows` | bpk-lib/crates/syncbat/src/effect.rs:162-226 | Every row built from empty is strictly sorted on every axis and names the capability of every axis it uses. |
| `EffectRow.BuiltExactly` | bpk-lib/crates/syncbat/src/effect.rs:162-226 | Axis by axis, a built row is the set of declared targets, and its tokens are those the declarations bring. |
| `EffectRow.RecordedRows` | bpk-lib/crates/syncbat/src/effect.rs:228-266 | So is every row recorded from empty. |
| `EffectRow.RecordedExactly` | bpk-lib/crates/syncbat/src/effect.rs:228-266 | Axis by axis, the recorded row is the set of effects that went through the handles. |
| `EffectRow.OnAxisMember` | bpk-lib/crates/syncbat/src/effect.rs:228-266 | A target is on an axis iff some effect put it there. |
| `EffectRow.ViolationExact` | bpk-lib/crates/syncbat/src/effect.rs:273-316 | The check passes iff every performed effect and its capability token is declared. |
| `EffectRow.ViolationNamed` | bpk-lib/crates/syncbat/src/effect.rs:273-316 | The violation reported is the first missing target of the first axis that has one, axes in the stated order, and names both. |
| `EffectRow.CapabilityClosure` | bpk-lib/crates/syncbat/src/effect.rs:273-316 | On a declared row the whole check passes exactly when all effects are declared, for every sequence of effects, if and only if each axis that can declare an effect brings its token. |
| `EffectRow.BuiltRowsSuffice` | bpk-lib/crates/syncbat/src/effect.rs:162-226 | Every row made by the builders is such a row: declared targets imply declared tokens. |
| `EffectRow.TokenlessDeclarationRefused` | bpk-lib/crates/syncbat/src/effect.rs:273-316 | On any row, a declared effect whose token is missing is refused. |
| `EffectRow.TokenlessExample` | bpk-lib/crates/syncbat/src/effect.rs:41-61 | A deserialized row with a read target and no token is one on which declared targets are not enough. |
| `EffectRow.DeclaredWithinClass` | bpk-lib/crates/syncbat/src/effect.rs:318-389 | A row valid for its class declares nothing the class forbids. |
| `EffectRow.ValidRowsExact` | bpk-lib/crates/syncbat/src/effect.rs:318-406 | A row is accepted for a class iff all its targets are well formed, it uses only axes the class allows, and it declares what the class demands. |
| `EffectRow.TokenGrammar` | bpk-lib/crates/syncbat/src/effect.rs:690-717 | A token is well formed iff it is short enough and splits at its dots into non-empty words. |
| `Dispatch.DescriptorsExact` | bpk-lib/crates/syncbat/src/operation.rs:256-284 | A descriptor is valid iff its name, its three references and its row's targets are dotted words of the allowed lengths and its row is one its class accepts. |
| `Dotted.DotsExact` | bpk-lib/crates/syncbat/src/operation_name.rs:112-139 | No leading, trailing or doubled dot iff no segment between dots is empty. |
| `Dotted.SegmentsSpell` | bpk-lib/crates/syncbat/src/operation_name.rs:8-17 | The segments hold no dot and spell the name when joined by dots. |
| `DispatchSafety.ExecObserves` | bpk-lib/crates/syncbat/src/effect.rs:503-628 | For every script, the observed row grows by exactly the effects the backend accepted meanwhile. |
| `DispatchSafety.ConcludeFailsClosed` | bpk-lib/crates/syncbat/src/core.rs:207-350 | An outcome is answered only if every configured sink took its record. Otherwise the answer is the error of the sink that refused, with its message and the handler's failure if there was one; the refused record is logged, the one due before it was taken, and the one due after it was never offered. |
| `DispatchSafety.CheckoutTurn` | bpk-lib/crates/syncbat/src/core.rs:114-350 | Every checkout of an operation with a handler is one of three turns: denied iff the guard denies, refused iff it admits and the status sink refuses Started, run otherwise. The turn's context, effects and result are those of the guard and of the operation's own handler, and its records and answer are exact, sink failures included. |
| `CallRecords.RecordsAreExact` | bpk-lib/crates/syncbat/src/core.rs:207-416 | Whatever a checkout offers to its sinks, taken or not, says this: operation and receipt kind; the hash of the input and, on success only, of the handler's own output; Denied with the guard's reason or the first undeclared effect, Failed with the handler's failure, or Completed; and, signed and local each in its own drawer, the metadata the guard and handler left. |
| `CallRecords.AnswersAreExact` | bpk-lib/crates/syncbat/src/core.rs:134-350 | The caller is answered with exactly that outcome: the handler's output with whatever the receipt sink answered for this receipt, the handler's failure, or the denial; anything else is a sink error. |
| `CallRecords.ExecTraced` | bpk-lib/crates/syncbat/src/core.rs:501-592 | Running a script takes the branch the backend's answers select, makes exactly the calls of that branch, returns its result, and leaves under every key of either drawer the last value attached along it. |
| `CallRecords.MetadataIsAttached` | bpk-lib/crates/syncbat/src/core.rs:529-541 | A call's metadata starts empty and holds what its guard and then its handler attached, the last value under each key. |
| `CallRecords.SinkErrorCarriesFailure` | bpk-lib/crates/syncbat/src/core.rs:314-416 | A sink error names the operation and carries the failure of a handler that ran clean and failed, and nothing otherwise. |
| `DispatchSafety.SuccessIsWitnessed` | bpk-lib/crates/syncbat/src/core.rs:114-350 | Whatever the sinks do, success means the guard admitted the call, the output is the handler's own, the Started and Completed facts and the Completed receipt were taken, the handler ran once and every accepted effect was declared; a built runtime never answers `MissingHandler`. |
| `DispatchSafety.SuccessStaysInClass` | bpk-lib/crates/syncbat/src/effect.rs:318-389 | A completed operation performed nothing its effect class forbids, and nothing at all for Compute. |
| `DispatchSafety.CheckoutAddsBlock` | bpk-lib/crates/syncbat/src/core.rs:114-350 | With accepting sinks a resolved checkout adds one receipt and either its Denied fact or Started and the matching terminal fact; the handler runs iff Started was recorded. |
| `DispatchSafety.AuthorityDecides` | bpk-lib/crates/syncbat/src/core.rs:132-312 | With accepting sinks the answer is decided by the guard's decision, then the effects accepted during the call, then the handler's own result: denied iff the guard denied or an accepted effect was not authorised, successful iff the guard admitted, the handler returned output and every accepted effect was authorised. |
| `ScriptAuthority.ScriptWithin` | bpk-lib/crates/syncbat/src/core.rs:191-248 | A script keeps to a row under every backend iff every effect it could perform, on any branch, is authorised. |
| `ScriptAuthority.DenialForeseen` | bpk-lib/crates/syncbat/src/core.rs:134-248 | With accepting sinks, no backend can have the effect check deny a call iff, on every branch on which its guard could admit it, the guard's accepted effects and every effect the handler could perform are authorised. |
| `ScriptAuthority.GuardlessDenial` | bpk-lib/crates/syncbat/src/core.rs:221-248 | With no guard, a handler that has one effect accepted is denied iff the effect is not authorised. |
| `ScriptAuthority.GuardlessDenialExample` | bpk-lib/crates/syncbat/src/core.rs:221-248 | A wired runtime without a guard that denies a call. |
| `DispatchSafety.RunLogs` | bpk-lib/crates/syncbat/src/core.rs:85-350 | The logs of any run are, in order, one such block per resolved request, and no answer is `MissingHandler`. |
| `DispatchSafety.RunAuthority` | bpk-lib/crates/syncbat/src/core.rs:191-248 | At every point of every run, effects accepted during a completed checkout were declared and allowed by the class. |
| `SyncCore.CoreBuilder.RegisterOperation` | bpk-lib/crates/syncbat/src/builder.rs:65-79 | Accepted iff valid and new; the table gains exactly that entry. |
| `SyncCore.CoreBuilder.RegisterHandler` | bpk-lib/crates/syncbat/src/builder.rs:86-103 | Accepted iff the name is valid and new. |
| `SyncCore.CoreBuilder.Register` | bpk-lib/crates/syncbat/src/builder.rs:110-175 | Both tables gain the entry, or neither does. |
| `SyncCore.CoreBuilder.Build` | bpk-lib/crates/syncbat/src/builder.rs:276-297 | Succeeds iff both tables name the same operations; the core is then wired. |
| `SyncCore.Runtime.PerformThroughBackend` | bpk-lib/crates/syncbat/src/effect.rs:503-640 | A handle's call reaches the backend if there is one, and reports its answer. |
| `SyncCore.Runtime.RunScript` | bpk-lib/crates/syncbat/src/core.rs:501-592 | A guard or handler at work: effects performed then recorded, metadata attached. |
| `SyncCore.Runtime.RecordStatus` | bpk-lib/crates/syncbat/src/core.rs:376-416 | Offers one fact; a refusal becomes the status-sink error with its cause. |
| `SyncCore.Runtime.RecordReceipt` | bpk-lib/crates/syncbat/src/core.rs:314-350 | Offers one receipt; the sink's own recorded receipt is handed back, and a refusal becomes the receipt-sink error with its cause. |
| `SyncCore.Runtime.RefuseCall` | bpk-lib/crates/syncbat/src/core.rs:134-161 | Denied fact, Denied receipt, denial error, stopping at the first refusal. |
| `SyncCore.Runtime.FinishHandlerPhase` | bpk-lib/crates/syncbat/src/core.rs:207-312 | The effect check overrides the handler's result; failure records fact then receipt, success receipt then fact, with the content `RecordsAreExact` states. |
| `SyncCore.Runtime.StartAndRun` | bpk-lib/crates/syncbat/src/core.rs:164-205 | Started is recorded before the handler runs; the handler phase follows. |
| `SyncCore.Runtime.Checkout` | bpk-lib/crates/syncbat/src/core.rs:114-205 | The step-by-step runtime is the pure semantics of one checkout, in every state. |
| `Schema.DeclareCanonical` | bpk-lib/crates/hostbat/src/schema.rs:300-327 | Declaring fails iff two golden vectors share a case name; otherwise the result verifies and does not depend on their order. |
| `Schema.DeclareExact` | bpk-lib/crates/hostbat/src/schema.rs:300-327 | A declared schema has the id, version and role it was given, all the golden vectors ascending by case name, and their encoding; a failure names the schema and a repeated case. |
| `Schema.FromDescriptors` | bpk-lib/crates/hostbat/src/schema.rs:412-427 | The registry files each descriptor under its reference, by version. |
| `Schema.RegistryFiles` | bpk-lib/crates/hostbat/src/schema.rs:412-427 | Each reference lists exactly its own descriptors, ascending by version, and one with none is absent. |
| `Schema.BadGolden` | bpk-lib/crates/hostbat/src/schema.rs:455-467 | No golden vector is bad iff all decode. |
| `Schema.BadGoldenIsFirst` | bpk-lib/crates/hostbat/src/schema.rs:455-467 | The case reported is the first that does not decode. |
| `Schema.ValidateExact` | bpk-lib/crates/hostbat/src/schema.rs:441-502 | Each refusal names the first check that fails: reference absent, ambiguous (with every version, ascending), encoding changed, first golden vector that does not decode, payload that does not decode. |
| `Schema.ValidateAccepts` | bpk-lib/crates/hostbat/src/schema.rs:441-502 | Validation accepts iff the reference has one descriptor, its encoding is intact, its golden vectors all decode and the bytes decode. |
| `Schema.UniqueResolves` | bpk-lib/crates/hostbat/src/schema.rs:441-502 | A reference with one intact candidate resolves to it, and validation accepts exactly what decodes, given that its golden vectors do. |
| `ModuleBuilder.RejectHookCollisions` | bpk-lib/crates/hostbat/src/module.rs:401-412 | The adjacent-pair check finds a collision iff any two hooks share phase and order. |
| `ModuleBuilder.AssemblyCanonical` | bpk-lib/crates/hostbat/src/manifest.rs:30-33 | A module and its digest depend on the set of registered parts, never on registration order. |
| `HostModule.ManifestCovers` | bpk-lib/crates/hostbat/src/manifest.rs:51-131 | Two modules have the same hashed manifest iff they agree in every part it covers: id, version, operations, namespaces, guard, hooks, jobs, schemas, subscriptions and bindings. |
| `HostModule.KeyOrder` | bpk-lib/crates/hostbat/src/schema.rs:373-379 | Schemas are ordered by id, then version, then role in declaration order. |
| `HostModule.RolesRequired` | bpk-lib/crates/hostbat/src/subscription.rs:174-180 | Which payload role each kind of subscription source requires. |
| `ModuleBuilder.ModuleIdGrammar` | bpk-lib/crates/hostbat/src/module.rs:416-440 | A module id is accepted iff it has at most 128 characters and splits at its dots into non-empty lower-case words. |
| `ModuleBuilder.HostModuleBuilder.constructor` | bpk-lib/crates/hostbat/src/module.rs:137-150 | Nothing is registered. |
| `ModuleBuilder.HostModuleBuilder.Operation` | bpk-lib/crates/hostbat/src/module.rs:157-178 | Accepted iff valid and new; the table gains exactly that entry. |
| `ModuleBuilder.HostModuleBuilder.MountGuard` | bpk-lib/crates/hostbat/src/module.rs:184-196 | Accepted iff no guard is set. |
| `ModuleBuilder.HostModuleBuilder.ReceiptNamespace` | bpk-lib/crates/hostbat/src/module.rs:202-212 | Accepted iff new. |
| `ModuleBuilder.HostModuleBuilder.DeclareSchema` | bpk-lib/crates/hostbat/src/module.rs:223-237 | Accepted iff its (id, version, role) is new. |
| `ModuleBuilder.HostModuleBuilder.Subscribe` | bpk-lib/crates/hostbat/src/module.rs:247-257 | Accepted iff its id is new. |
| `ModuleBuilder.HostModuleBuilder.BindEventPayload` | bpk-lib/crates/hostbat/src/module.rs:269-284 | Accepted iff the reference is non-empty and the kind is new. |
| `ModuleBuilder.HostModuleBuilder.AddHook` | bpk-lib/crates/hostbat/src/module.rs:287-294 | The hook is appended. |
| `ModuleBuilder.HostModuleBuilder.AddJob` | bpk-lib/crates/hostbat/src/module.rs:300-314 | Accepted iff the kind is new. |
| `ModuleBuilder.HostModuleBuilder.Build` | bpk-lib/crates/hostbat/src/module.rs:322-395 | Succeeds iff the id is well formed, something is declared and no two hooks contend, and otherwise names the first of these that fails; the module holds exactly the registered parts in canonical order, hooks ascending by phase, order and name, coherent and sealed. |
| `Composition.CompositionBuilder.Add` | bpk-lib/crates/hostbat/src/composition.rs:92-126 | Refused iff the key is present with another encoding; a present key keeps its first entry. |
| `Composition.CompositionBuilder.AddModule` | bpk-lib/crates/hostbat/src/builder.rs:213-215 | Succeeds iff no schema contradicts the table; the table gains exactly the new keys, and a collision names both sides. |
| `Composition.CompositionBuilder.Seal` | bpk-lib/crates/hostbat/src/composition.rs:135-155 | One entry per declared key, in key order, owned by its first declarer. |
| `Composition.EntryIsFirst` | bpk-lib/crates/hostbat/src/composition.rs:99-125 | The entry of a key is the declaration of the first module that declares it. |
| `Composition.FitsExact` | bpk-lib/crates/hostbat/src/composition.rs:92-126 | The table refuses a module iff the module disagrees with one already in it. |
| `Composition.IdentityForgetsOrder` | bpk-lib/crates/hostbat/src/composition.rs:128-155 | The (id, version, role, encoding) part of the composition is the same for every mount order. |
| `Composition.OwnershipOrder` | bpk-lib/crates/hostbat/src/composition.rs:128-155 | The whole hashed view is the same for every mount order iff no schema key is declared by two modules. |
| `Composition.HashedViews` | bpk-lib/crates/hostbat/src/composition.rs:135-155 | The hashed view lists, for each declared key once, its id, version, role and encoding with its first declarer. |
| `Composition.EntriesInOrder` | bpk-lib/crates/hostbat/src/composition.rs:135-155 | It ascends by id, version and role. |
| `Mounting.VacancyIsCompatibility` | bpk-lib/crates/hostbat/src/builder.rs:132-215 | Nothing the module claims is taken, and its schemas fit, iff it is compatible with every mounted module. |
| `Mounting.MountableForgetsOrder` | bpk-lib/crates/hostbat/src/builder.rs:115-219 | Pairwise compatibility, hence mount success, does not depend on the order. |
| `Mounting.SharedSchemaExample` | bpk-lib/crates/hostbat/src/composition.rs:112-113 | Two sealed, coherent modules that mount together and share a schema hash differently in the two orders. |
| `Mounting.FileItems` | bpk-lib/crates/hostbat/src/builder.rs:135-210 | Files all items iff none of their keys is taken; otherwise names the first that is. |
| `HostBuilder.HostBuilder.Mount` | bpk-lib/crates/hostbat/src/builder.rs:122-219 | Succeeds iff the digest verifies and the module is compatible with every mounted one; a failure names a real clash. |
| `HostBuilder.MountAll` | bpk-lib/crates/hostbat/src/builder.rs:122-219 | Mounting any sequence of built modules succeeds iff they are pairwise compatible. |
| `HostBuilder.HostBuilder.Build` | bpk-lib/crates/hostbat/src/builder.rs:228-296 | Succeeds iff something is mounted and every reference of every module means exactly one declared schema, and otherwise names a reference that does not; the errors of lowering never occur. The host shows what `FaceExact` says. |
| `Interface.ComputeInterface` | bpk-lib/crates/hostbat/src/interface.rs:89-153 | Succeeds iff every reference resolves; the interface lists a view of each declared item, and nothing else, in key order. |
| `Interface.InterfaceExact` | bpk-lib/crates/hostbat/src/interface.rs:89-284 | In a computed interface each operation is shown once, under its module, with the one schema meant by each of its three references in its own role; each subscription and binding likewise; the exports are the declared event payloads; every list ascends by owner and key, or id and version. |
| `Interface.ResolveRefExact` | bpk-lib/crates/hostbat/src/interface.rs:241-275 | A reference resolves to its one meaning; without one it is missing, with several ambiguous with all their versions, and the error names module, operation, reference and role. |
| `Interface.OperationViewExact` | bpk-lib/crates/hostbat/src/interface.rs:174-209 | An operation is shown iff its input, output and receipt references each have one meaning, and shows them. |
| `Interface.FingerprintForgetsOrder` | bpk-lib/crates/hostbat/src/builder.rs:510-524 | The H_host pre-image is the same for every mount order. |
| `Interface.FingerprintExact` | bpk-lib/crates/hostbat/src/builder.rs:510-524 | The H_host pre-image holds exactly the modules' ids with their digests, ids strictly ascending. |
| `Interface.InterfaceForgetsOrder` | bpk-lib/crates/hostbat/src/interface.rs:116-151 | So is the H_interface pre-image, given the composition's identity part. |
| `Interface.ScheduleForgetsOrder` | bpk-lib/crates/hostbat/src/builder.rs:268-271 | So is each hook schedule, in which no two hooks share a place. |
| `Interface.ScheduleExact` | bpk-lib/crates/hostbat/src/host.rs:47-55 | Each schedule lists exactly the hooks of its phase with their modules, strictly ascending by order, then module, then name. |
| `Interface.CanonicalForgetsOrder` | bpk-lib/crates/hostbat/src/builder.rs:273-279 | So are the subscription and binding lists. |
| `Interface.CanonicalExact` | bpk-lib/crates/hostbat/src/builder.rs:273-279 | Each list holds exactly the declared items with their modules, strictly ascending by module and key. |
| `Interface.MeaningsAreCandidates` | bpk-lib/crates/hostbat/src/interface.rs:248-258 | Build-time matching sees exactly the candidates of the run-time registry. |
| `Lowering.AddGuard` | bpk-lib/crates/hostbat/src/builder.rs:547-553 | The module's operations are routed to the new guard and no other route changes. |
| `Lowering.LowerOperations` | bpk-lib/crates/hostbat/src/builder.rs:334-344 | A module with distinct, valid, untaken operation names and a handler for each lowers without error; each operation is then served behind validation. |
| `Lowering.SplitHooks` | bpk-lib/crates/hostbat/src/builder.rs:348-354 | Hooks go to the list of their phase, in order, stamped with the module. |
| `Lowering.LowerModules` | bpk-lib/crates/hostbat/src/builder.rs:310-376 | Every operation of every module is registered behind validation, every guard routed, every list collected in mount order. |
| `Lowering.BoundKinds` | bpk-lib/crates/hostbat/src/builder.rs:378-385 | The map is exactly the declared bindings. |
| `Host.MountedLowers` | bpk-lib/crates/hostbat/src/builder.rs:310-344 | Mounted modules always lower: no missing handler, invalid or repeated operation. |
| `Host.ValidateSubscriptions` | bpk-lib/crates/hostbat/src/builder.rs:423-457 | Passes iff every subscription's payload reference resolves; otherwise names one that does not, with its module. |
| `Host.ValidateBindings` | bpk-lib/crates/hostbat/src/builder.rs:387-421 | Passes iff every binding's payload reference resolves; otherwise names one that does not, with its module. |
| `Host.ResolveExact` | bpk-lib/crates/hostbat/src/interface.rs:241-275 | All references resolve iff each means exactly one schema identity the modules declare. |
| `Host.DeclaredForgetsOrder` | bpk-lib/crates/hostbat/src/builder.rs:228-238 | Whether a build succeeds does not depend on the mount order. |
| `Host.WireCore` | bpk-lib/crates/hostbat/src/builder.rs:245-281 | The built runtime registers every operation behind validation, judges each by its own module's guard and reaches the backend only through payload validation. |
| `Host.BuildHost` | bpk-lib/crates/hostbat/src/builder.rs:228-296 | A host exists iff every reference resolves, and a failure names a reference that does not; the host holds what the specification of a host says and shows what `FaceExact` says. |
| `Host.FaceExact` | bpk-lib/crates/hostbat/src/builder.rs:228-296 | What a host shows: exactly the modules' ids and digests in its fingerprint; the client interface, item by item; operations by name; subscriptions and bindings by module and key; and the two hook schedules; each in strictly ascending order. |
| `Host.MountOrderIrrelevant` | bpk-lib/crates/hostbat/src/builder.rs:268-279 | Hosts built from the same modules in any two orders have the same fingerprint and interface pre-images, lists, schedules and schema identities. |
| `Host.UnsharedCompositionFixed` | bpk-lib/crates/hostbat/src/composition.rs:128-155 | And the same owners, when no schema is shared. |
| `Host.StaticIsDynamic` | bpk-lib/crates/hostbat/src/schema.rs:441-502 | A reference resolves at run time iff it means exactly one declared schema, to an intact descriptor of a mounted module, and then accepts exactly what decodes. |
| `HostSafety.AppendsAreLawful` | bpk-lib/crates/hostbat/src/validating_effect_backend.rs:54-69 | Over every run, each event that reaches the inner backend has a kind bound once and a payload accepted by its one event-payload schema. |
| `HostSafety.BackendExact` | bpk-lib/crates/hostbat/src/validating_effect_backend.rs:38-69 | A built host's backend is the configured one behind a gate: every read, query, emit and host control reaches it, an append reaches it iff its kind is bound and its payload accepted, and its answers are passed on unchanged. |
| `HostSafety.ValidationExact` | bpk-lib/crates/hostbat/src/builder.rs:483-508 | A wrapped handler refuses unaccepted input as invalid without running, runs exactly as its own handler on accepted input, and turns an unaccepted output into a failure. |
| `HostSafety.CheckedExec` | bpk-lib/crates/hostbat/src/builder.rs:493-506 | Checking a handler's output changes neither its effects nor its metadata. |
| `HostSafety.CompletedIsValidated` | bpk-lib/crates/hostbat/src/builder.rs:483-508 | In any state, a completed call had accepted input and accepted output. |
| `HostSafety.RunIsValidated` | bpk-lib/crates/hostbat/src/builder.rs:483-508 | Over every run, every success was validated both ways. |
| `HostSafety.InvalidInputIsHidden` | bpk-lib/crates/hostbat/src/builder.rs:484-493 | Over every run, a module's handler can be replaced by any other that does the same with accepted input, without changing a record, effect or answer: handlers see only validated input. |
| `HostSafety.GuardIsolation` | bpk-lib/crates/hostbat/src/builder.rs:546-571 | At every point of every run, across all modules, a call goes exactly as with its own module's guard alone installed. |
| `HostSafety.EveryOperationOwned` | bpk-lib/crates/hostbat/src/builder.rs:327-347 | Every operation of a built host belongs to a mounted module that brought its handler. |
| `HostSafety.OperationsResolve` | bpk-lib/crates/hostbat/src/schema.rs:477-502 | In a built host every operation's input, output and receipt reference resolves to one intact schema. |
| `HostSafety.ExportsResolve` | bpk-lib/crates/hostbat/src/schema.rs:477-502 | So does every binding's and every subscription's payload reference. |
| `HostSafety.MountOrderUnobservable` | bpk-lib/crates/hostbat/src/builder.rs:228-296 | Hosts built from the same modules in any two orders answer every run alike, given that modules declaring one schema key declare one descriptor. |
| `HostSafety.NoCollisionNoDifference` | bpk-lib/crates/hostbat/src/composition.rs:99-114 | Mounted modules do, if no two lists of golden vectors of one schema share an encoding. |

## Left out

- Store engine, segments, frontier, netbat transport and bvisor: not part of this model.
- JSON metadata parsing, receipt files, rerun lines and other build-script I/O: foreign formats and file system only.
- Clocks: `iso8601_now` is modelled from the second count on; formatting digits as text is left out.
- Supervisor threads, job bodies, hook bodies, `Host::start` and `Host::shutdown`: a hook is its descriptor and an opaque body, a job its kind.
- Tracing, `Display` texts and error wording: error values carry the fields that identify the cause; the nested detail text of schema-validation failures is left out, and quoted targets in a violation message are not escaped.
- Operation titles, diagnostic Rust types and the constant fields of hashed views (domain separators, wire versions): they add nothing that varies with the modelled inputs.
- `canonical_digest` failures: the encoder is total in the host model, as the source documents for its frozen shapes; in the reservation and registry models the encoder may fail and the error is returned.
- `operation_owners` in the host builder is written and never read; it is not modelled.
- `HostCompositionManifest::verify_digest`, `find` and other accessors: single expressions.
- `SchemaId`, `EventCategory`, `ProjectionId` and entity coordinates: their own constructors' grammars are not modelled; the values are plain strings or numbers.
- HostSafety.AppendsAreLawful: `ValidatingEffectBackend` is modelled as a gate in front of the inner backend's answers rather than as an object that owns the inner backend, so aliasing of the inner backend is not captured.
- EffectRow.InsertTarget: Rust finds the position by binary search, whose result is specified only on sorted lists; the model inserts at the first position and agrees with it on the sorted lists every builder and recorder produces.
- SyncCore.Runtime.RunScript: a handler that never returns or panics is not modelled; every script is finite.
- Calendar.CivilFitsI64: what Rust does when the first addition overflows (a panic or a wrap, by build profile) is not modelled.
