/**
 Verification of an attested registry row: the envelope plane (body digest, envelope
 digest, signature findings) and the structural checks layered on it.

 The canonical encoders, the content hash and the signature predicate are
 parameters; nothing is assumed of them beyond being functions.
 */
module RowVerification {
  import opened Sorting
  import opened Evidence
  import opened Registry

  datatype EncodeError = EncodeError(message: string)

  datatype SignatureRef = SignatureRef(algorithmId: nat, keyId: Hash, signatureBytes: Bytes)

  datatype AttestationRef = AttestationRef(kindId: nat, bytes: Bytes)

  datatype Envelope = Envelope(
    body: RowBody,
    envelopeSchemaVersion: nat,
    generatedAtWallMs: Option<nat>,
    diagnosticNote: Option<string>,
    signatures: seq<SignatureRef>,
    attestations: seq<AttestationRef>)

  const ARTIFACT_ENVELOPE_FRAMING_VERSION := 1

  datatype EnvelopeIdentity = EnvelopeIdentity(
    framingSchemaVersion: nat,
    bodyHash: Hash,
    envelopeSchemaVersion: nat,
    generatedAtWallMs: Option<nat>,
    diagnosticNote: Option<string>,
    signaturesSorted: seq<SignatureRef>,
    attestationsSorted: seq<AttestationRef>)

  datatype EnvelopeFinding = InvalidSignature(keyId: Hash, reason: string)

  datatype EnvelopeReport = EnvelopeReport(bodyHash: Hash, envelopeHash: Hash, findings: seq<EnvelopeFinding>)

  datatype RowFinding =
    | UnsupportedRowSchemaVersion(rowId: RowId, observed: nat, expected: nat)
    | InvalidLifecycle(rowId: RowId, lifecycle: nat)
    | RowHashMismatch(rowId: RowId, claimed: Hash, computed: Hash)
    | RowIdMismatch(bodyRowId: RowId, claimedRowId: RowId)

  datatype RowReport = RowReport(schemaVersion: nat, envelopePlane: EnvelopeReport, findings: seq<RowFinding>)

  // The canonical encoders, the content hash, and the caller's signature check,
  // which answers with a reason when it refuses.
  datatype Crypto = Crypto(
    encodeBody: RowBody -> Result<Bytes, EncodeError>,
    encodeIdentity: EnvelopeIdentity -> Result<Bytes, EncodeError>,
    hash: Bytes -> Hash,
    refusal: (SignatureRef, Bytes) -> Option<string>)

  // ----- Orders (derived `Ord`: fields in declaration order) -----

  predicate NamedDigestLe(a: NamedDigest, b: NamedDigest) {
    if a.name == b.name then a.digest <= b.digest else StrLe(a.name, b.name)
  }

  predicate SignatureLe(a: SignatureRef, b: SignatureRef) {
    if a.algorithmId != b.algorithmId then a.algorithmId < b.algorithmId
    else if a.keyId != b.keyId then a.keyId < b.keyId
    else BytesLe(a.signatureBytes, b.signatureBytes)
  }

  predicate AttestationLe(a: AttestationRef, b: AttestationRef) {
    if a.kindId != b.kindId then a.kindId < b.kindId else BytesLe(a.bytes, b.bytes)
  }

  predicate EnvelopeFindingLe(a: EnvelopeFinding, b: EnvelopeFinding) {
    if a.keyId != b.keyId then a.keyId < b.keyId else StrLe(a.reason, b.reason)
  }

  function RowFindingKey(f: RowFinding): seq<nat> {
    match f
    case UnsupportedRowSchemaVersion(id, o, e) => [0, id, o, e]
    case InvalidLifecycle(id, l) => [1, id, l]
    case RowHashMismatch(id, c, h) => [2, id, c, h]
    case RowIdMismatch(b, c) => [3, b, c]
  }

  predicate RowFindingLe(a: RowFinding, b: RowFinding) { BytesLe(RowFindingKey(a), RowFindingKey(b)) }

  lemma AttachmentOrders()
    ensures TotalOrder(NamedDigestLe) && TotalOrder(SignatureLe)
    ensures TotalOrder(AttestationLe)
  {
    StrTotalOrder();
    BytesTotalOrder();
  }

  lemma RowFindingTotalOrder()
    ensures TotalOrder(RowFindingLe)
  {
    forall a, b | RowFindingKey(a) == RowFindingKey(b) ensures a == b {
      var k, l := RowFindingKey(a), RowFindingKey(b);
      assert k[0] == l[0] && k[1] == l[1] && k[2] == l[2];
      assert |k| == 4 ==> k[3] == l[3];
    }
    KeyedTotalOrder(RowFindingLe, RowFindingKey);
  }

  // ----- The verification -----

  function NormalizeBody(body: RowBody): RowBody {
    body.(namedDigests := Sort(NamedDigestLe, body.namedDigests))
  }

  function RowBodyHash(crypto: Crypto, body: RowBody): Result<Hash, EncodeError> {
    match crypto.encodeBody(NormalizeBody(body))
    case Err(error) => Err(error)
    case Ok(bytes) => Ok(crypto.hash(bytes))
  }

  function IdentityOf(e: Envelope, bodyHash: Hash): EnvelopeIdentity {
    EnvelopeIdentity(ARTIFACT_ENVELOPE_FRAMING_VERSION, bodyHash, e.envelopeSchemaVersion,
                     e.generatedAtWallMs, e.diagnosticNote,
                     Sort(SignatureLe, e.signatures), Sort(AttestationLe, e.attestations))
  }

  // The refusals of the signatures, in the order they are checked.
  function Refusals(crypto: Crypto, signatures: seq<SignatureRef>, body: Bytes): seq<EnvelopeFinding> {
    if signatures == [] then []
    else
      var s := signatures[0];
      var rest := Refusals(crypto, signatures[1..], body);
      match crypto.refusal(s, body)
      case None => rest
      case Some(reason) => [InvalidSignature(s.keyId, reason)] + rest
  }

  lemma {:induction false} RefusalsAppend(crypto: Crypto, signatures: seq<SignatureRef>, s: SignatureRef, body: Bytes)
    ensures Refusals(crypto, signatures + [s], body) == Refusals(crypto, signatures, body) + Refusals(crypto, [s], body)
  {
    if signatures == [] {
      assert signatures + [s] == [s];
    } else {
      assert (signatures + [s])[1..] == signatures[1..] + [s];
      RefusalsAppend(crypto, signatures[1..], s, body);
    }
  }

  // The finding reports a signature that the check refuses over the body bytes.
  ghost predicate Reports(crypto: Crypto, signatures: seq<SignatureRef>, body: Bytes, f: EnvelopeFinding) {
    exists s :: s in signatures && s.keyId == f.keyId && crypto.refusal(s, body) == Some(f.reason)
  }

  lemma {:induction false} RefusalsExact(crypto: Crypto, signatures: seq<SignatureRef>, body: Bytes)
    ensures forall f :: f in Refusals(crypto, signatures, body) <==> Reports(crypto, signatures, body, f)
  {
    if signatures != [] {
      RefusalsExact(crypto, signatures[1..], body);
      forall f ensures f in Refusals(crypto, signatures, body) <==> Reports(crypto, signatures, body, f) {
        var s := signatures[0];
        assert forall x :: x in signatures <==> x == s || x in signatures[1..];
        assert Reports(crypto, signatures, body, f) <==>
               Reports(crypto, signatures[1..], body, f) || (s.keyId == f.keyId && crypto.refusal(s, body) == Some(f.reason));
      }
    }
  }

  predicate Refused(crypto: Crypto, body: Bytes, s: SignatureRef) { crypto.refusal(s, body).Some? }

  lemma {:induction false} RefusalsCount(crypto: Crypto, signatures: seq<SignatureRef>, body: Bytes)
    ensures |Refusals(crypto, signatures, body)| == |Filter((s: SignatureRef) => Refused(crypto, body, s), signatures)|
  {
    if signatures != [] { RefusalsCount(crypto, signatures[1..], body); }
  }

  lemma EnvelopeFindingTotalOrder()
    ensures TotalOrder(EnvelopeFindingLe)
  {
    StrTotalOrder();
  }

  // Signatures ascend by algorithm, then key, then bytes.
  ghost predicate SignaturesAscend(ss: seq<SignatureRef>) {
    forall i, j :: 0 <= i < j < |ss| ==>
      ss[i].algorithmId < ss[j].algorithmId
      || (ss[i].algorithmId == ss[j].algorithmId
          && (ss[i].keyId < ss[j].keyId || (ss[i].keyId == ss[j].keyId && BytesLe(ss[i].signatureBytes, ss[j].signatureBytes))))
  }

  ghost predicate AttestationsAscend(ts: seq<AttestationRef>) {
    forall i, j :: 0 <= i < j < |ts| ==>
      ts[i].kindId < ts[j].kindId || (ts[i].kindId == ts[j].kindId && BytesLe(ts[i].bytes, ts[j].bytes))
  }

  // The identity frames the body's digest with everything else the envelope carries, its
  // signatures and attestations in canonical order.
  ghost predicate Frames(e: Envelope, bodyHash: Hash, id: EnvelopeIdentity) {
    && id.framingSchemaVersion == 1 && id.bodyHash == bodyHash
    && id.envelopeSchemaVersion == e.envelopeSchemaVersion
    && id.generatedAtWallMs == e.generatedAtWallMs && id.diagnosticNote == e.diagnosticNote
    && multiset(id.signaturesSorted) == multiset(e.signatures) && SignaturesAscend(id.signaturesSorted)
    && multiset(id.attestationsSorted) == multiset(e.attestations) && AttestationsAscend(id.attestationsSorted)
  }

  lemma IdentityFrames(e: Envelope, bodyHash: Hash)
    ensures Frames(e, bodyHash, IdentityOf(e, bodyHash))
  {
    AttachmentOrders();
    SortSorts(SignatureLe, e.signatures);
    SortSorts(AttestationLe, e.attestations);
  }

  /** The framing is canonical: an envelope and a body digest have one identity. */
  lemma FramesUnique(e: Envelope, bodyHash: Hash, id: EnvelopeIdentity)
    requires Frames(e, bodyHash, id)
    ensures id == IdentityOf(e, bodyHash)
  {
    AttachmentOrders();
    SortSorts(SignatureLe, e.signatures);
    SortSorts(AttestationLe, e.attestations);
    SortedPermutationsEqual(SignatureLe, id.signaturesSorted, Sort(SignatureLe, e.signatures));
    SortedPermutationsEqual(AttestationLe, id.attestationsSorted, Sort(AttestationLe, e.attestations));
  }

  // The envelope hash is the digest of such an identity.
  ghost predicate HashesIdentity(crypto: Crypto, e: Envelope, report: EnvelopeReport) {
    exists id, bytes :: Frames(e, report.bodyHash, id) && crypto.encodeIdentity(id) == Ok(bytes) && report.envelopeHash == crypto.hash(bytes)
  }

  // Findings ascend by key, then reason.
  ghost predicate RefusalsAscend(fs: seq<EnvelopeFinding>) {
    forall i, j :: 0 <= i < j < |fs| ==> fs[i].keyId < fs[j].keyId || (fs[i].keyId == fs[j].keyId && StrLe(fs[i].reason, fs[j].reason))
  }

  // What the envelope plane reports, given the raw bytes of the body: their digest, the
  // digest of the envelope's identity, and one finding, in order, for every signature
  // refused over the bytes.
  ghost predicate PlaneHolds(crypto: Crypto, e: Envelope, raw: Bytes, report: EnvelopeReport) {
    && report.bodyHash == crypto.hash(raw)
    && HashesIdentity(crypto, e, report)
    && RefusalsAscend(report.findings)
    && (forall f :: f in report.findings <==> Reports(crypto, e.signatures, raw, f))
    && |report.findings| == |Filter((s: SignatureRef) => Refused(crypto, raw, s), Sort(SignatureLe, e.signatures))|
  }

  /** The envelope plane's findings are sorted and are exactly the refusals of the
      envelope's signatures, one each, over the raw body bytes whose digest it reports. */
  lemma PlaneExact(crypto: Crypto, e: Envelope, report: EnvelopeReport)
    requires EnvelopePlane(crypto, e) == Ok(report)
    ensures crypto.encodeBody(e.body).Ok? && PlaneHolds(crypto, e, crypto.encodeBody(e.body).value, report)
  {
    var raw, sorted := crypto.encodeBody(e.body).value, Sort(SignatureLe, e.signatures);
    var refusals := Refusals(crypto, sorted, raw);
    AttachmentOrders();
    EnvelopeFindingTotalOrder();
    SortSorts(SignatureLe, e.signatures);
    SortSorts(EnvelopeFindingLe, refusals);
    RefusalsCount(crypto, sorted, raw);
    RefusalsExact(crypto, sorted, raw);
    IdentityFrames(e, report.bodyHash);
    assert crypto.encodeIdentity(IdentityOf(e, report.bodyHash)).Ok?;
    forall f ensures f in report.findings <==> Reports(crypto, e.signatures, raw, f) {
      assert Reports(crypto, sorted, raw, f) <==> Reports(crypto, e.signatures, raw, f);
    }
  }

  function EnvelopePlane(crypto: Crypto, e: Envelope): Result<EnvelopeReport, EncodeError> {
    match crypto.encodeBody(e.body)
    case Err(error) => Err(error)
    case Ok(raw) =>
      var bodyHash := crypto.hash(raw);
      var identity := IdentityOf(e, bodyHash);
      match crypto.encodeIdentity(identity)
      case Err(error) => Err(error)
      case Ok(bytes) =>
        Ok(EnvelopeReport(bodyHash, crypto.hash(bytes),
                          Sort(EnvelopeFindingLe, Refusals(crypto, identity.signaturesSorted, raw))))
  }

  method CheckSignatures(crypto: Crypto, signatures: seq<SignatureRef>, raw: Bytes) returns (findings: seq<EnvelopeFinding>)
    ensures findings == Refusals(crypto, signatures, raw)
    ensures forall f :: f in findings <==> Reports(crypto, signatures, raw, f)
  {
    findings := [];
    for k := 0 to |signatures|
      invariant findings == Refusals(crypto, signatures[..k], raw)
    {
      assert signatures[..k + 1] == signatures[..k] + [signatures[k]];
      RefusalsAppend(crypto, signatures[..k], signatures[k], raw);
      var refusal := crypto.refusal(signatures[k], raw);
      if refusal.Some? {
        findings := findings + [InvalidSignature(signatures[k].keyId, refusal.value)];
      }
    }
    assert signatures[..|signatures|] == signatures;
    RefusalsExact(crypto, signatures, raw);
  }

  method VerifyEnvelope(crypto: Crypto, e: Envelope) returns (r: Result<EnvelopeReport, EncodeError>)
    ensures r == EnvelopePlane(crypto, e)
    ensures r.Ok? ==> crypto.encodeBody(e.body).Ok? && PlaneHolds(crypto, e, crypto.encodeBody(e.body).value, r.value)
  {
    var encoded := crypto.encodeBody(e.body);
    if encoded.Err? { return Err(encoded.error); }
    var bodyHash := crypto.hash(encoded.value);
    var identity := IdentityOf(e, bodyHash);
    var framed := crypto.encodeIdentity(identity);
    if framed.Err? { return Err(framed.error); }
    var findings := CheckSignatures(crypto, identity.signaturesSorted, encoded.value);
    r := Ok(EnvelopeReport(bodyHash, crypto.hash(framed.value), Sort(EnvelopeFindingLe, findings)));
    PlaneExact(crypto, e, r.value);
  }

  function StructuralFindings(body: RowBody, claimedId: RowId, claimedHash: Hash, computed: Hash): seq<RowFinding> {
    (if body.schemaVersion != REGISTRY_ROW_BODY_SCHEMA_VERSION
     then [UnsupportedRowSchemaVersion(body.rowId, body.schemaVersion, REGISTRY_ROW_BODY_SCHEMA_VERSION)] else [])
    + (if body.rowId != claimedId then [RowIdMismatch(body.rowId, claimedId)] else [])
    + (if computed != claimedHash then [RowHashMismatch(body.rowId, claimedHash, computed)] else [])
    + (if body.lifecycle != REGISTRY_LIFECYCLE_ANNOUNCED && body.lifecycle != REGISTRY_LIFECYCLE_LIVE
          && body.lifecycle != REGISTRY_LIFECYCLE_DEPRECATED && body.lifecycle != REGISTRY_LIFECYCLE_REMOVED
       then [InvalidLifecycle(body.rowId, body.lifecycle)] else [])
  }

  function VerifyRow(crypto: Crypto, e: Envelope, claimedId: RowId, claimedHash: Hash): Result<RowReport, EncodeError> {
    var normalized := e.(body := NormalizeBody(e.body));
    match EnvelopePlane(crypto, normalized)
    case Err(error) => Err(error)
    case Ok(plane) =>
      match RowBodyHash(crypto, normalized.body)
      case Err(error) => Err(error)
      case Ok(computed) =>
        Ok(RowReport(REGISTRY_VERIFICATION_REPORT_SCHEMA_VERSION, plane,
                     Sort(RowFindingLe, StructuralFindings(normalized.body, claimedId, claimedHash, computed))))
  }

  // Named digests ascend by name, then digest.
  ghost predicate DigestsAscend(ds: seq<NamedDigest>) {
    forall i, j :: 0 <= i < j < |ds| ==> StrBefore(ds[i].name, ds[j].name) || (ds[i].name == ds[j].name && ds[i].digest <= ds[j].digest)
  }

  /** Normalizing a body puts its named digests in order and touches nothing else. */
  lemma NormalizedBody(body: RowBody)
    ensures DigestsAscend(NormalizeBody(body).namedDigests)
    ensures multiset(NormalizeBody(body).namedDigests) == multiset(body.namedDigests)
    ensures NormalizeBody(body).(namedDigests := []) == body.(namedDigests := [])
  {
    AttachmentOrders();
    SortSorts(NamedDigestLe, body.namedDigests);
  }

  // Schema, lifecycle, hash and id findings in that order, each by their fields.
  ghost predicate RowFindingBefore(a: RowFinding, b: RowFinding) {
    match a
    case UnsupportedRowSchemaVersion(id, o, e) =>
      !b.UnsupportedRowSchemaVersion? || id < b.rowId || (id == b.rowId && (o < b.observed || (o == b.observed && e <= b.expected)))
    case InvalidLifecycle(id, l) =>
      !b.UnsupportedRowSchemaVersion? && (!b.InvalidLifecycle? || id < b.rowId || (id == b.rowId && l <= b.lifecycle))
    case RowHashMismatch(id, c, h) =>
      b.RowIdMismatch? || (b.RowHashMismatch? && (id < b.rowId || (id == b.rowId && (c < b.claimed || (c == b.claimed && h <= b.computed)))))
    case RowIdMismatch(r, c) => b.RowIdMismatch? && (r < b.bodyRowId || (r == b.bodyRowId && c <= b.claimedRowId))
  }

  lemma {:induction false} RowFindingOrder(a: RowFinding, b: RowFinding)
    ensures RowFindingLe(a, b) <==> RowFindingBefore(a, b)
  {
    var k, l := RowFindingKey(a), RowFindingKey(b);
    BytesStep(k, l);
    BytesStep(k[1..], l[1..]);
    BytesStep(k[2..], l[2..]);
    if |k| == 4 && |l| == 4 { BytesStep(k[3..], l[3..]); BytesStep(k[4..], l[4..]); } else { BytesStep(k[3..], l[3..]); }
  }

  // ----- Canonicality -----

  ghost predicate Permuted(a: Envelope, b: Envelope) {
    && multiset(a.body.namedDigests) == multiset(b.body.namedDigests)
    && multiset(a.signatures) == multiset(b.signatures)
    && multiset(a.attestations) == multiset(b.attestations)
    && b == a.(body := a.body.(namedDigests := b.body.namedDigests),
               signatures := b.signatures, attestations := b.attestations)
  }

  lemma SortedAttachmentsAgree(a: Envelope, b: Envelope)
    requires Permuted(a, b)
    ensures NormalizeBody(a.body) == NormalizeBody(b.body)
    ensures Sort(SignatureLe, a.signatures) == Sort(SignatureLe, b.signatures)
    ensures Sort(AttestationLe, a.attestations) == Sort(AttestationLe, b.attestations)
  {
    AttachmentOrders();
    SortForgetsOrder(NamedDigestLe, a.body.namedDigests, b.body.namedDigests);
    SortForgetsOrder(SignatureLe, a.signatures, b.signatures);
    SortForgetsOrder(AttestationLe, a.attestations, b.attestations);
  }

  lemma PlaneAgrees(crypto: Crypto, a: Envelope, b: Envelope)
    requires a.body == b.body && a.envelopeSchemaVersion == b.envelopeSchemaVersion
    requires a.generatedAtWallMs == b.generatedAtWallMs && a.diagnosticNote == b.diagnosticNote
    requires Sort(SignatureLe, a.signatures) == Sort(SignatureLe, b.signatures)
    requires Sort(AttestationLe, a.attestations) == Sort(AttestationLe, b.attestations)
    ensures EnvelopePlane(crypto, a) == EnvelopePlane(crypto, b)
  {
    forall h ensures IdentityOf(a, h) == IdentityOf(b, h) { }
  }

  /** Reordering named digests, signatures or attestations does not change the report. */
  lemma VerificationCanonical(crypto: Crypto, a: Envelope, b: Envelope, claimedId: RowId, claimedHash: Hash)
    requires Permuted(a, b)
    ensures VerifyRow(crypto, a, claimedId, claimedHash) == VerifyRow(crypto, b, claimedId, claimedHash)
  {
    SortedAttachmentsAgree(a, b);
    PlaneAgrees(crypto, a.(body := NormalizeBody(a.body)), b.(body := NormalizeBody(b.body)));
  }

  // Normalizing twice is normalizing once, so both digest planes hash the same bytes.
  lemma NormalizeIdempotent(body: RowBody)
    ensures NormalizeBody(NormalizeBody(body)) == NormalizeBody(body)
  {
    AttachmentOrders();
    SortSorts(NamedDigestLe, body.namedDigests);
    SortFixed(NamedDigestLe, Sort(NamedDigestLe, body.namedDigests));
  }

  /** Both digest planes hash the very bytes the signatures were checked over. */
  lemma {:induction false} PlanesShareBytes(crypto: Crypto, e: Envelope)
    ensures var plane := EnvelopePlane(crypto, e.(body := NormalizeBody(e.body)));
            plane.Ok? ==>
              exists raw ::
                && crypto.encodeBody(NormalizeBody(e.body)) == Ok(raw)
                && plane.value.bodyHash == crypto.hash(raw)
                && plane.value.findings ==
                     Sort(EnvelopeFindingLe, Refusals(crypto, Sort(SignatureLe, e.signatures), raw))
                && RowBodyHash(crypto, NormalizeBody(e.body)) == Ok(crypto.hash(raw))
  {
    NormalizeIdempotent(e.body);
    var plane := EnvelopePlane(crypto, e.(body := NormalizeBody(e.body)));
    if plane.Ok? {
      var raw := crypto.encodeBody(NormalizeBody(e.body)).value;
      assert crypto.encodeBody(NormalizeBody(e.body)) == Ok(raw);
    }
  }

  // The checks a finding reports as failed.
  ghost predicate Fails(body: RowBody, claimedId: RowId, claimedHash: Hash, computed: Hash, f: RowFinding) {
    match f
    case UnsupportedRowSchemaVersion(id, o, e) =>
      id == body.rowId && o == body.schemaVersion && e == REGISTRY_ROW_BODY_SCHEMA_VERSION && o != e
    case InvalidLifecycle(id, l) =>
      id == body.rowId && l == body.lifecycle && l > REGISTRY_LIFECYCLE_REMOVED
    case RowHashMismatch(id, c, h) => id == body.rowId && c == claimedHash && h == computed && c != h
    case RowIdMismatch(b, c) => b == body.rowId && c == claimedId && b != c
  }

  lemma StructuralExact(body: RowBody, claimedId: RowId, claimedHash: Hash, computed: Hash, f: RowFinding)
    ensures f in StructuralFindings(body, claimedId, claimedHash, computed) <==>
            Fails(body, claimedId, claimedHash, computed, f)
  {
  }

  /** The structural findings are exactly the failed checks, sorted; the row-hash one
      compares the claimed hash with the envelope plane's body digest. */
  lemma VerificationExact(crypto: Crypto, e: Envelope, claimedId: RowId, claimedHash: Hash, report: RowReport)
    requires VerifyRow(crypto, e, claimedId, claimedHash) == Ok(report)
    ensures report.schemaVersion == 1
    ensures forall i, j :: 0 <= i < j < |report.findings| ==> RowFindingBefore(report.findings[i], report.findings[j])
    ensures forall f :: f in report.findings <==>
                        Fails(NormalizeBody(e.body), claimedId, claimedHash, report.envelopePlane.bodyHash, f)
    ensures crypto.encodeBody(NormalizeBody(e.body)).Ok?
    ensures PlaneHolds(crypto, e.(body := NormalizeBody(e.body)), crypto.encodeBody(NormalizeBody(e.body)).value, report.envelopePlane)
  {
    PlaneExact(crypto, e.(body := NormalizeBody(e.body)), report.envelopePlane);
    forall i, j | 0 <= i < j < |report.findings| ensures RowFindingBefore(report.findings[i], report.findings[j]) {
      FindingsExact(NormalizeBody(e.body), claimedId, claimedHash, RowBodyHash(crypto, NormalizeBody(e.body)).value);
      RowFindingOrder(report.findings[i], report.findings[j]);
    }
    FindingsAreFailures(crypto, e, claimedId, claimedHash, report);
  }

  lemma FindingsAreFailures(crypto: Crypto, e: Envelope, claimedId: RowId, claimedHash: Hash, report: RowReport)
    requires VerifyRow(crypto, e, claimedId, claimedHash) == Ok(report)
    ensures forall f :: f in report.findings <==>
                        Fails(NormalizeBody(e.body), claimedId, claimedHash, report.envelopePlane.bodyHash, f)
  {
    PlanesShareBytes(crypto, e);
    FindingsExact(NormalizeBody(e.body), claimedId, claimedHash, report.envelopePlane.bodyHash);
  }

  lemma FindingsExact(body: RowBody, claimedId: RowId, claimedHash: Hash, computed: Hash)
    ensures var findings := Sort(RowFindingLe, StructuralFindings(body, claimedId, claimedHash, computed));
            && Sorted(RowFindingLe, findings)
            && forall f :: f in findings <==> Fails(body, claimedId, claimedHash, computed, f)
  {
    RowFindingTotalOrder();
    SortSorts(RowFindingLe, StructuralFindings(body, claimedId, claimedHash, computed));
    forall f ensures f in StructuralFindings(body, claimedId, claimedHash, computed) <==>
                     Fails(body, claimedId, claimedHash, computed, f)
    {
      StructuralExact(body, claimedId, claimedHash, computed, f);
    }
  }

  ghost predicate HashAccepted(findings: seq<RowFinding>) { forall f :: f in findings ==> !f.RowHashMismatch? }

  // The normalized body cannot be encoded, or it can and its framing cannot.
  ghost predicate CannotEncode(crypto: Crypto, e: Envelope, error: EncodeError) {
    match crypto.encodeBody(NormalizeBody(e.body))
    case Err(x) => error == x
    case Ok(bytes) => exists id :: Frames(e, crypto.hash(bytes), id) && crypto.encodeIdentity(id) == Err(error)
  }

  /** Verification fails iff an encoder does, with that encoder's error. */
  lemma VerificationFails(crypto: Crypto, e: Envelope, claimedId: RowId, claimedHash: Hash, error: EncodeError)
    ensures VerifyRow(crypto, e, claimedId, claimedHash) == Err(error) <==> CannotEncode(crypto, e, error)
  {
    NormalizeIdempotent(e.body);
    var encoded := crypto.encodeBody(NormalizeBody(e.body));
    if encoded.Ok? {
      var h := crypto.hash(encoded.value);
      IdentityFrames(e, h);
      assert IdentityOf(e.(body := NormalizeBody(e.body)), h) == IdentityOf(e, h);
      forall id | Frames(e, h, id) ensures id == IdentityOf(e, h) { FramesUnique(e, h, id); }
    }
  }

  /** No row-hash finding iff the claimed hash is the envelope plane's body digest. */
  lemma HashMismatchAbsent(crypto: Crypto, e: Envelope, claimedId: RowId, claimedHash: Hash, report: RowReport)
    requires VerifyRow(crypto, e, claimedId, claimedHash) == Ok(report)
    ensures HashAccepted(report.findings) <==> claimedHash == report.envelopePlane.bodyHash
  {
    FindingsAreFailures(crypto, e, claimedId, claimedHash, report);
    MismatchAbsent(NormalizeBody(e.body), claimedId, claimedHash, report.envelopePlane.bodyHash, report.findings);
  }

  lemma MismatchAbsent(body: RowBody, claimedId: RowId, claimedHash: Hash, bodyHash: Hash, findings: seq<RowFinding>)
    requires forall f :: f in findings <==> Fails(body, claimedId, claimedHash, bodyHash, f)
    ensures HashAccepted(findings) <==> claimedHash == bodyHash
  {
    if claimedHash != bodyHash {
      assert Fails(body, claimedId, claimedHash, bodyHash, RowHashMismatch(body.rowId, claimedHash, bodyHash));
    }
  }
}
