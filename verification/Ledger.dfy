/** A row of the disposition ledger. */
module Ledger {
  datatype LedgerRow = LedgerRow(
    candidateId: string,
    disposition: string,
    claimId: string,
    coveredByClaimId: string,
    reasonCode: string,
    reviewedAt: string,
    reviewerNotes: string)
}
