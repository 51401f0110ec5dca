/**
 Registry rows and the vocabulary their audits share.
 */
module Registry {
  import opened Evidence

  type RowId = Hash

  datatype NamedDigest = NamedDigest(name: string, digest: Hash)

  datatype RowBody = RowBody(
    schemaVersion: nat,
    rowId: RowId,
    rowKind: nat,
    rowLayoutVersion: nat,
    opaquePayload: seq<nat>,
    namedDigests: seq<NamedDigest>,
    lifecycle: nat,
    supersedes: Option<RowId>)

  const REGISTRY_ROW_BODY_SCHEMA_VERSION := 1
  const REGISTRY_VERIFICATION_REPORT_SCHEMA_VERSION := 1
  const REGISTRY_LIFECYCLE_ANNOUNCED := 0
  const REGISTRY_LIFECYCLE_LIVE := 1
  const REGISTRY_LIFECYCLE_DEPRECATED := 2
  const REGISTRY_LIFECYCLE_REMOVED := 3
}
