/** The expiration condition attached to approvals and operator grants.  It is
    defined by the `cw_utils` library, whose code is not part of this model;
    this module states the definition the registry relies on. */
module Expiry {
  import opened CosmStd

  datatype Expiration = AtHeight(height: u64) | AtTime(time: u64) | Never {
    /** Expired once the block reaches the height, or the block time reaches
        the timestamp; `Never` never expires. */
    predicate IsExpired(block: BlockInfo) {
      match this
      case AtHeight(h) => block.height >= h
      case AtTime(t) => block.time >= t
      case Never => false
    }
  }

  /** Block `b` is no earlier than block `a`. */
  predicate NotBefore(b: BlockInfo, a: BlockInfo) {
    a.height <= b.height && a.time <= b.time
  }

  /** Once expired, an expiration stays expired in every later block. */
  lemma ExpiredStaysExpired(e: Expiration, a: BlockInfo, b: BlockInfo)
    requires NotBefore(b, a) && e.IsExpired(a)
    ensures e.IsExpired(b)
  {
  }
}
