/** Compliance statuses shared by commercial partners and hedge counterparties. */
module Compliance {
  datatype Kyc = Pending | Approved | Expired | Rejected
  datatype Sanctions = Unscreened | Clear | Flagged | Blocked
}
