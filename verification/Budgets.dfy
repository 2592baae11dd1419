/** The approved archive budgets and the inequalities that make every reserve sufficient. */
module Budgets {

  import Archive
  import Catalog

  datatype Request = Request(maxRecords: nat, maxRecordBytes: nat, maxTotalBytes: nat)

  datatype Limits = Limits(
    maxAttempts: nat,
    maxActive: nat,
    maxDirectories: nat,
    maxCatalogRecords: nat,
    maxCatalogRecordBytes: nat,
    maxTotalArchiveBytes: nat,
    maxKeyBytes: nat,
    maxSeenKeyBytes: nat,
    request: Request)

  /** `(3A + 2)C`: every catalog record a full ledger can write, at its largest. */
  function CatalogReserve(l: Limits): nat {
    (3 * l.maxAttempts + 2) * l.maxCatalogRecordBytes
  }

  /** One record in flight for every active request, and one for the catalog. */
  function PendingReserve(l: Limits): nat {
    l.maxActive * l.request.maxRecordBytes + l.maxCatalogRecordBytes
  }

  /** `_budgets` accepts the configuration. */
  predicate Approved(l: Limits) {
    && l.maxAttempts >= 1 && l.maxActive >= 1 && l.maxCatalogRecordBytes >= 1 && l.maxKeyBytes >= 1
    && l.maxDirectories >= 1 && l.maxCatalogRecords >= 1 && l.maxTotalArchiveBytes >= 1 && l.maxSeenKeyBytes >= 1
    && l.request.maxRecordBytes >= 1 && l.request.maxTotalBytes >= 1
    && 2 <= l.request.maxRecords <= 100000000
    && l.request.maxTotalBytes >= 2 * l.request.maxRecordBytes
    && l.maxActive <= l.maxAttempts
    && l.maxDirectories >= l.maxAttempts + 2
    && 3 * l.maxAttempts + 2 <= l.maxCatalogRecords <= 100000000
    && l.maxSeenKeyBytes >= l.maxAttempts * l.maxKeyBytes
    && l.maxTotalArchiveBytes
       >= CatalogReserve(l) + l.maxAttempts * l.request.maxTotalBytes + PendingReserve(l)
  }

  /** The two codecs `_budgets` builds carry these limits. */
  predicate Built(l: Limits, cat: Catalog.Codec, arc: Archive.Codec) {
    && cat.maxRecords == l.maxCatalogRecords
    && cat.maxRecordBytes == l.maxCatalogRecordBytes
    && cat.maxTotalBytes == l.maxCatalogRecords * l.maxCatalogRecordBytes
    && arc.maxRecords == l.request.maxRecords
    && arc.maxRecordBytes == l.request.maxRecordBytes
    && arc.maxTotalBytes == l.request.maxTotalBytes
  }
}
