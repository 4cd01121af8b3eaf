/** The registry's storage, seen by the queries as one immutable snapshot. */
module State {
  import opened Wrappers
  import opened CosmStd
  import opened Expiry

  /** A per-token permission for `spender` to transfer or send the token. */
  datatype Approval = Approval(spender: string, expires: Expiration) {
    predicate IsExpired(block: BlockInfo) {
      expires.IsExpired(block)
    }
  }

  /** The record kept for one token; `approvals` is in insertion order and
      expired entries stay until they are revoked or the token moves. */
  datatype NftInfo<E> = NftInfo(owner: string, approvals: seq<Approval>, tokenUri: Option<string>, extension: E)

  /** The key spaces the queries read:
      - `nftInfo`: token id to token record (the primary map);
      - `ownerIndex`: the (owner, token id) pairs of the owner secondary index;
      - `operators`: (owner, operator) to the expiration of an operator grant;
      - `tokenCount`: the running token counter;
      - `withdrawAddress`: the optional payout address. */
  datatype Storage<E> = Storage(
    nftInfo: map<string, NftInfo<E>>,
    ownerIndex: set<(string, string)>,
    operators: map<(string, string), Expiration>,
    tokenCount: u64,
    withdrawAddress: Option<string>)

  /** The owner index holds exactly one pair per token record, naming its owner.
      Keeping it so is the mutation layer's job, which is not part of this
      model; lemmas that rely on it take it as a precondition. */
  ghost predicate IndexConsistent<E>(s: Storage<E>) {
    && (forall k :: k in s.ownerIndex ==> k.1 in s.nftInfo && s.nftInfo[k.1].owner == k.0)
    && (forall t :: t in s.nftInfo ==> (s.nftInfo[t].owner, t) in s.ownerIndex)
  }

  /** The token counter equals the number of token records (also kept by the
      mutation layer). */
  ghost predicate CountConsistent<E>(s: Storage<E>) {
    s.tokenCount == |s.nftInfo|
  }
}
