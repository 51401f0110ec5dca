/**
 Wire schemas: content-identified descriptors and the runtime registry that resolves
 a reference to exactly one of them.

 The canonical encoding digest and the canonical decoder are parameters.
 */
module Schema {
  import opened Sorting
  import opened Evidence

  datatype Role = OperationInput | OperationOutput | EventPayload | ReceiptPayload | SubscriptionPayload

  function Rank(r: Role): nat {
    match r
    case OperationInput => 0
    case OperationOutput => 1
    case EventPayload => 2
    case ReceiptPayload => 3
    case SubscriptionPayload => 4
  }

  datatype Golden = Golden(caseName: string, bytes: Bytes)

  datatype Descriptor = Descriptor(id: string, version: nat, role: Role, golden: seq<Golden>, encoding: Hash)

  // The digest of a schema's identity-bearing view.
  type Encoder = (string, nat, Role, seq<Golden>) -> Hash

  datatype SchemaError =
    | DuplicateGolden(schema: string, caseName: string)
    | NotPresent(schema: string, role: Role)
    | Ambiguous(schema: string, role: Role, versions: seq<nat>)
    | EncodingMismatch(schema: string, role: Role)
    | GoldenNotCanonical(schema: string, role: Role, caseName: string)
    | PayloadNotCanonical(schema: string, role: Role)

  // ----- Declaring a schema -----

  predicate GoldenLe(a: Golden, b: Golden) { StrLe(a.caseName, b.caseName) }

  lemma GoldenPreorder()
    ensures TotalPreorder(GoldenLe)
  {
    StrTotalOrder();
  }

  // The first adjacent pair of vectors with the same case name.
  function FirstRepeat(golden: seq<Golden>): (r: Option<string>) {
    if |golden| < 2 then None
    else if golden[0].caseName == golden[1].caseName then Some(golden[0].caseName)
    else FirstRepeat(golden[1..])
  }

  lemma {:induction false} FirstRepeatExact(golden: seq<Golden>)
    ensures FirstRepeat(golden).None? <==> forall i :: 0 < i < |golden| ==> golden[i - 1].caseName != golden[i].caseName
  {
    if |golden| >= 2 {
      var rest := golden[1..];
      FirstRepeatExact(rest);
      if FirstRepeat(rest).None? {
        forall i | 1 < i < |golden| ensures golden[i - 1].caseName != golden[i].caseName {
          assert rest[i - 2].caseName != rest[i - 1].caseName;
        }
      }
      if forall i :: 0 < i < |golden| ==> golden[i - 1].caseName != golden[i].caseName {
        forall i | 0 < i < |rest| ensures rest[i - 1].caseName != rest[i].caseName {
          assert golden[i].caseName != golden[i + 1].caseName by { assert golden[i + 1 - 1].caseName != golden[i + 1].caseName; }
        }
      }
    }
  }

  function Declare(encode: Encoder, id: string, version: nat, role: Role, golden: seq<Golden>): Result<Descriptor, SchemaError> {
    var sorted := Sort(GoldenLe, golden);
    match FirstRepeat(sorted)
    case Some(c) => Err(DuplicateGolden(id, c))
    case None => Ok(Descriptor(id, version, role, sorted, encode(id, version, role, sorted)))
  }

  predicate VerifyEncoding(encode: Encoder, s: Descriptor) {
    encode(s.id, s.version, s.role, s.golden) == s.encoding
  }

  ghost predicate DistinctCases(golden: seq<Golden>) {
    forall i, j :: 0 <= i < j < |golden| ==> golden[i].caseName != golden[j].caseName
  }

  // In a sequence sorted by case name, equal names are adjacent.
  lemma {:induction false} NoRepeatIsDistinct(golden: seq<Golden>)
    requires Sorted(GoldenLe, golden)
    ensures FirstRepeat(golden).None? <==> DistinctCases(golden)
  {
    FirstRepeatExact(golden);
    if FirstRepeat(golden).None? {
      forall i, j | 0 <= i < j < |golden| ensures golden[i].caseName != golden[j].caseName {
        LexTotal(CharLe, golden[j - 1].caseName, golden[j].caseName);
        assert GoldenLe(golden[j - 1], golden[j]) && golden[j - 1].caseName != golden[j].caseName;
        assert i < j - 1 ==> GoldenLe(golden[i], golden[j - 1]);
      }
    }
  }

  lemma {:induction false} CaseCount(golden: seq<Golden>, i: nat, j: nat)
    requires i < j < |golden| && golden[i] == golden[j]
    ensures multiset(golden)[golden[i]] >= 2
  {
    CountAtLeastTwo(golden, i, j);
  }

  // Whether case names repeat does not depend on the order of the vectors.
  lemma DistinctCasesPermute(a: seq<Golden>, b: seq<Golden>)
    requires multiset(a) == multiset(b) && DistinctCases(a)
    ensures DistinctCases(b)
  {
    SameMembers(a, b);
    forall i, j | 0 <= i < j < |b| ensures b[i].caseName != b[j].caseName {
      if b[i].caseName == b[j].caseName {
        assert b[i] in a && b[j] in a;
        if b[i] == b[j] {
          CaseCount(b, i, j);
          CountAtMostOne(a, b[i]);
        }
      }
    }
  }

  /** Declaring a schema fails iff two vectors share a case name; otherwise the result
      verifies, and does not depend on the order the vectors were given in. */
  lemma DeclareCanonical(encode: Encoder, id: string, version: nat, role: Role, a: seq<Golden>, b: seq<Golden>)
    requires multiset(a) == multiset(b)
    ensures Declare(encode, id, version, role, a).Ok? <==> DistinctCases(a)
    ensures DistinctCases(a) ==> Declare(encode, id, version, role, a) == Declare(encode, id, version, role, b)
    ensures Declare(encode, id, version, role, a).Ok? ==> VerifyEncoding(encode, Declare(encode, id, version, role, a).value)
  {
    GoldenPreorder();
    var sorted := Sort(GoldenLe, a);
    SortSorts(GoldenLe, a);
    NoRepeatIsDistinct(sorted);
    if DistinctCases(a) {
      DistinctCasesPermute(a, sorted);
      CasesDistinguish(a);
      SortForgetsOrder(GoldenLe, a, b);
    }
    if DistinctCases(sorted) { DistinctCasesPermute(sorted, a); }
  }

  // Vectors ascend strictly by case name.
  ghost predicate CasesAscend(golden: seq<Golden>) {
    forall i, j :: 0 <= i < j < |golden| ==> StrBefore(golden[i].caseName, golden[j].caseName)
  }

  /** A declared schema has the identity it was declared with, its vectors in case-name
      order, and the encoding of just that; a refusal names a case that is repeated. */
  lemma {:induction false} DeclareExact(encode: Encoder, id: string, version: nat, role: Role, golden: seq<Golden>)
    ensures match Declare(encode, id, version, role, golden)
            case Ok(s) =>
              && s.id == id && s.version == version && s.role == role
              && multiset(s.golden) == multiset(golden) && CasesAscend(s.golden)
              && s.encoding == encode(id, version, role, s.golden)
            case Err(e) => exists c :: e == DuplicateGolden(id, c) && exists i, j :: 0 <= i < j < |golden| && golden[i].caseName == c && golden[j].caseName == c
  {
    GoldenPreorder();
    var sorted := Sort(GoldenLe, golden);
    SortSorts(GoldenLe, golden);
    NoRepeatIsDistinct(sorted);
    if FirstRepeat(sorted).Some? {
      RepeatIsReal(sorted);
      RepeatPermutes(sorted, golden, FirstRepeat(sorted).value);
    }
  }

  lemma {:induction false} RepeatIsReal(golden: seq<Golden>)
    requires FirstRepeat(golden).Some?
    ensures exists i :: 0 < i < |golden| && golden[i - 1].caseName == FirstRepeat(golden).value && golden[i].caseName == golden[i - 1].caseName
  {
    if golden[0].caseName == golden[1].caseName {
      assert golden[1 - 1].caseName == FirstRepeat(golden).value;
    } else {
      var rest := golden[1..];
      RepeatIsReal(rest);
      var i :| 0 < i < |rest| && rest[i - 1].caseName == FirstRepeat(rest).value && rest[i].caseName == rest[i - 1].caseName;
      assert golden[i + 1 - 1] == rest[i - 1] && golden[i + 1] == rest[i];
    }
  }

  // A case name that occurs twice occurs twice in any order.
  lemma {:induction false} RepeatPermutes(a: seq<Golden>, b: seq<Golden>, c: string)
    requires multiset(a) == multiset(b)
    requires exists i :: 0 < i < |a| && a[i - 1].caseName == c && a[i].caseName == a[i - 1].caseName
    ensures exists i, j :: 0 <= i < j < |b| && b[i].caseName == c && b[j].caseName == c
  {
    var i :| 0 < i < |a| && a[i - 1].caseName == c && a[i].caseName == a[i - 1].caseName;
    SameMembers(a, b);
    assert a[i - 1] in a && a[i] in a;
    if a[i - 1] == a[i] {
      CountAtLeastTwo(a, i - 1, i);
      TwoPositions(b, a[i]);
    } else {
      var p :| 0 <= p < |b| && b[p] == a[i - 1];
      var q :| 0 <= q < |b| && b[q] == a[i];
    }
  }

  lemma CasesDistinguish(a: seq<Golden>)
    requires DistinctCases(a)
    ensures KeysDistinguish(GoldenLe, a)
  {
    forall x, y | x in a && y in a && GoldenLe(x, y) && GoldenLe(y, x) ensures x == y {
      LexTotal(CharLe, x.caseName, y.caseName);
      var i :| 0 <= i < |a| && a[i] == x;
      var j :| 0 <= j < |a| && a[j] == y;
    }
  }

  // ----- The registry -----

  type Registry = map<(string, Role), seq<Descriptor>>

  predicate IsFor(s: Descriptor, id: string, role: Role) { s.id == id && s.role == role }

  predicate VersionLe(a: Descriptor, b: Descriptor) { a.version <= b.version }

  // All descriptors of a reference, in the order given.
  function Candidates(schemas: seq<Descriptor>, id: string, role: Role): seq<Descriptor> {
    Filter(s => IsFor(s, id, role), schemas)
  }

  // The registry files every descriptor under its reference, by version.
  ghost predicate IsRegistry(schemas: seq<Descriptor>, registry: Registry) {
    forall id, role ::
      if Candidates(schemas, id, role) == [] then (id, role) !in registry
      else (id, role) in registry && registry[(id, role)] == Sort(VersionLe, Candidates(schemas, id, role))
  }

  // The grouping before the final per-reference sort.
  ghost predicate IsGrouping(schemas: seq<Descriptor>, groups: Registry) {
    forall id, role ::
      if Candidates(schemas, id, role) == [] then (id, role) !in groups
      else (id, role) in groups && groups[(id, role)] == Candidates(schemas, id, role)
  }

  lemma CandidatesAppend(schemas: seq<Descriptor>, s: Descriptor, id: string, role: Role)
    ensures Candidates(schemas + [s], id, role) ==
            if IsFor(s, id, role) then Candidates(schemas, id, role) + [s] else Candidates(schemas, id, role)
  {
    FilterConcat(x => IsFor(x, id, role), schemas, [s]);
    assert [s][1..] == [];
  }

  method FromDescriptors(schemas: seq<Descriptor>) returns (registry: Registry)
    ensures IsRegistry(schemas, registry)
  {
    var groups: Registry := map[];
    for k := 0 to |schemas|
      invariant IsGrouping(schemas[..k], groups)
    {
      var s := schemas[k];
      assert schemas[..k + 1] == schemas[..k] + [s];
      var key := (s.id, s.role);
      forall id, role ensures
        Candidates(schemas[..k + 1], id, role) ==
        if IsFor(s, id, role) then Candidates(schemas[..k], id, role) + [s] else Candidates(schemas[..k], id, role)
      {
        CandidatesAppend(schemas[..k], s, id, role);
      }
      groups := groups[key := (if key in groups then groups[key] else []) + [s]];
    }
    assert schemas[..|schemas|] == schemas;
    registry := map key | key in groups :: Sort(VersionLe, groups[key]);
  }

  function Versions(schemas: seq<Descriptor>): seq<nat> {
    if schemas == [] then [] else [schemas[0].version] + Versions(schemas[1..])
  }

  function Resolve(registry: Registry, id: string, role: Role): Result<Descriptor, SchemaError> {
    if (id, role) !in registry then Err(NotPresent(id, role))
    else
      var found := registry[(id, role)];
      if |found| != 1 then Err(Ambiguous(id, role, Versions(found))) else Ok(found[0])
  }

  function BadGolden(decodes: Bytes -> bool, golden: seq<Golden>): (r: Option<string>)
    ensures r.None? <==> forall g :: g in golden ==> decodes(g.bytes)
  {
    if golden == [] then None
    else if !decodes(golden[0].bytes) then Some(golden[0].caseName)
    else BadGolden(decodes, golden[1..])
  }

  function Validate(registry: Registry, encode: Encoder, decodes: Bytes -> bool, id: string, role: Role, bytes: Bytes)
    : Result<(), SchemaError>
  {
    match Resolve(registry, id, role)
    case Err(e) => Err(e)
    case Ok(s) =>
      if !VerifyEncoding(encode, s) then Err(EncodingMismatch(id, role))
      else match BadGolden(decodes, s.golden)
        case Some(c) => Err(GoldenNotCanonical(id, role, c))
        case None => if decodes(bytes) then Ok(()) else Err(PayloadNotCanonical(id, role))
  }

  // A registry entry holds exactly the descriptors of its reference, by ascending version.
  ghost predicate Files(schemas: seq<Descriptor>, registry: Registry, id: string, role: Role) {
    && ((id, role) in registry <==> exists s :: s in schemas && s.id == id && s.role == role)
    && ((id, role) in registry ==>
          && (forall s :: s in registry[(id, role)] <==> s in schemas && s.id == id && s.role == role)
          && (forall i, j :: 0 <= i < j < |registry[(id, role)]| ==> registry[(id, role)][i].version <= registry[(id, role)][j].version))
  }

  /** The registry files each descriptor under its own id and role. */
  lemma RegistryFiles(schemas: seq<Descriptor>, registry: Registry, id: string, role: Role)
    requires IsRegistry(schemas, registry)
    ensures Files(schemas, registry, id, role)
  {
    var found := Candidates(schemas, id, role);
    FilterMembers((s: Descriptor) => IsFor(s, id, role), schemas);
    assert forall s :: s in found <==> s in schemas && s.id == id && s.role == role;
    if found != [] {
      assert found[0] in found;
      SortSorts(VersionLe, found);
    }
  }

  lemma {:induction false} VersionsAt(schemas: seq<Descriptor>)
    ensures |Versions(schemas)| == |schemas| && forall i :: 0 <= i < |schemas| ==> Versions(schemas)[i] == schemas[i].version
  {
    if schemas != [] { VersionsAt(schemas[1..]); }
  }

  // Why validation refuses bytes: the first of its checks that fails.
  ghost predicate Refuses(schemas: seq<Descriptor>, encode: Encoder, decodes: Bytes -> bool, id: string, role: Role, bytes: Bytes, e: SchemaError) {
    var found := Candidates(schemas, id, role);
    if found == [] then e == NotPresent(id, role)
    else if |found| != 1 then
      e.Ambiguous? && e.schema == id && e.role == role && multiset(e.versions) == multiset(Versions(found))
      && forall i, j :: 0 <= i < j < |e.versions| ==> e.versions[i] <= e.versions[j]
    else if encode(found[0].id, found[0].version, found[0].role, found[0].golden) != found[0].encoding then e == EncodingMismatch(id, role)
    else if exists g :: g in found[0].golden && !decodes(g.bytes) then
      e.GoldenNotCanonical? && e.schema == id && e.role == role && FirstBad(decodes, found[0].golden, e.caseName)
    else !decodes(bytes) && e == PayloadNotCanonical(id, role)
  }

  // The case is that of the first vector that does not decode.
  ghost predicate FirstBad(decodes: Bytes -> bool, golden: seq<Golden>, c: string) {
    exists i :: 0 <= i < |golden| && golden[i].caseName == c && !decodes(golden[i].bytes)
                && forall j :: 0 <= j < i ==> decodes(golden[j].bytes)
  }

  lemma {:induction false} BadGoldenIsFirst(decodes: Bytes -> bool, golden: seq<Golden>)
    ensures BadGolden(decodes, golden).Some? ==> FirstBad(decodes, golden, BadGolden(decodes, golden).value)
  {
    if golden != [] && decodes(golden[0].bytes) && BadGolden(decodes, golden).Some? {
      var rest := golden[1..];
      BadGoldenIsFirst(decodes, rest);
      var i :| 0 <= i < |rest| && rest[i].caseName == BadGolden(decodes, rest).value && !decodes(rest[i].bytes)
               && forall j :: 0 <= j < i ==> decodes(rest[j].bytes);
      assert golden[i + 1] == rest[i];
      forall j | 0 <= j < i + 1 ensures decodes(golden[j].bytes) { if j > 0 { assert golden[j] == rest[j - 1]; } }
    }
  }

  lemma {:induction false} VersionsSorted(found: seq<Descriptor>)
    ensures var vs := Versions(Sort(VersionLe, found));
            multiset(vs) == multiset(Versions(found)) && forall i, j :: 0 <= i < j < |vs| ==> vs[i] <= vs[j]
  {
    SortSorts(VersionLe, found);
    VersionsAt(Sort(VersionLe, found));
    VersionsPermute(found);
  }

  lemma {:induction false} VersionsPermute(found: seq<Descriptor>)
    ensures multiset(Versions(Sort(VersionLe, found))) == multiset(Versions(found))
  {
    if found != [] {
      VersionsPermute(found[1..]);
      VersionsInsert(found[0], Sort(VersionLe, found[1..]));
    }
  }

  lemma {:induction false} VersionsInsert(x: Descriptor, s: seq<Descriptor>)
    ensures multiset(Versions(InsertStable(VersionLe, x, s))) == multiset{x.version} + multiset(Versions(s))
  {
    if s == [] || VersionLe(x, s[0]) {
      assert ([x] + s)[1..] == s;
    } else {
      VersionsInsert(x, s[1..]);
      var r := InsertStable(VersionLe, x, s[1..]);
      assert ([s[0]] + r)[1..] == r;
    }
  }

  /** Validation accepts iff the reference has one descriptor, its encoding and golden
      vectors are intact, and the bytes decode. */
  lemma {:induction false} ValidateAccepts(schemas: seq<Descriptor>, registry: Registry, encode: Encoder, decodes: Bytes -> bool,
                        id: string, role: Role, bytes: Bytes)
    requires IsRegistry(schemas, registry)
    ensures Validate(registry, encode, decodes, id, role, bytes).Ok? <==>
            exists s :: Candidates(schemas, id, role) == [s] && encode(s.id, s.version, s.role, s.golden) == s.encoding
                        && (forall g :: g in s.golden ==> decodes(g.bytes)) && decodes(bytes)
  {
    var found := Candidates(schemas, id, role);
    if |found| > 1 { VersionsSorted(found); }
    if |found| == 1 {
      SortFixed(VersionLe, found);
      assert found == [found[0]];
    }
  }

  /** A refusal names the first check that fails. */
  lemma {:induction false} ValidateExact(schemas: seq<Descriptor>, registry: Registry, encode: Encoder, decodes: Bytes -> bool,
                      id: string, role: Role, bytes: Bytes)
    requires IsRegistry(schemas, registry)
    ensures var r := Validate(registry, encode, decodes, id, role, bytes);
            r.Err? ==> Refuses(schemas, encode, decodes, id, role, bytes, r.error)
  {
    var found := Candidates(schemas, id, role);
    if |found| > 1 { VersionsSorted(found); }
    if |found| == 1 {
      SortFixed(VersionLe, found);
      BadGoldenIsFirst(decodes, found[0].golden);
    }
  }

  /** A reference with exactly one candidate resolves to it, and validation then accepts
      exactly the payloads that decode, provided its own golden vectors do. */
  lemma UniqueResolves(schemas: seq<Descriptor>, registry: Registry, encode: Encoder, decodes: Bytes -> bool,
                       id: string, role: Role, s: Descriptor, bytes: Bytes)
    requires IsRegistry(schemas, registry) && Candidates(schemas, id, role) == [s] && VerifyEncoding(encode, s)
    ensures Resolve(registry, id, role) == Ok(s)
    ensures Validate(registry, encode, decodes, id, role, bytes).Ok? <==>
            decodes(bytes) && forall g :: g in s.golden ==> decodes(g.bytes)
  {
    assert Sort(VersionLe, [s]) == [s] by {
      assert [s][1..] == [];
      assert Sort(VersionLe, [s]) == InsertStable(VersionLe, s, Sort(VersionLe, []));
    }
  }
}
