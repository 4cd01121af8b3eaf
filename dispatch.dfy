/** Answering a query message: each message variant is routed to its query,
    and an unset `includeExpired` is read as false. */
module Dispatch {
  import opened Wrappers
  import opened CosmStd
  import opened Seqs
  import opened LexOrder
  import opened Pagination
  import opened Expiry
  import opened State
  import opened Query
  import Msg
  import QueryProperties

  /** `include_expired.unwrap_or(false)`: only an explicit true shows expired entries. */
  function IncludeExpired(flag: Option<bool>): (b: bool)
    ensures b <==> flag == Some(true)
  {
    flag.UnwrapOr(false)
  }

  /** The response variant that answers each message variant. */
  predicate Answers<E>(msg: Msg.QueryMsg, response: Msg.QueryResponse<E>) {
    match msg
    case OwnerOf(_, _) => response.OwnerOfResult?
    case Approval(_, _, _) => response.ApprovalResult?
    case Approvals(_, _) => response.ApprovalsResult?
    case Operator(_, _, _) => response.OperatorResult?
    case AllOperators(_, _, _, _) => response.OperatorsResult?
    case NumTokens => response.NumTokensResult?
    case NftInfo(_) => response.NftInfoResult?
    case AllNftInfo(_, _) => response.AllNftInfoResult?
    case Tokens(_, _, _) => response.TokensResult?
    case AllTokens(_, _) => response.TokensResult?
    case GetWithdrawAddress => response.WithdrawAddressResult?
  }

  /** Answers a query message with the query its variant names; the listing
      and counting messages never fail. */
  function Handle<E>(s: Storage<E>, block: BlockInfo, msg: Msg.QueryMsg): (r: StdResult<Msg.QueryResponse<E>>)
    ensures r.Ok? ==> Answers(msg, r.value)
    ensures msg.AllOperators? || msg.NumTokens? || msg.Tokens? || msg.AllTokens? || msg.GetWithdrawAddress? ==> r.Ok?
    ensures msg.OwnerOf? || msg.Approvals? || msg.NftInfo? || msg.AllNftInfo? ==>
              (r.Err? <==> msg.tokenId !in s.nftInfo)
  {
    match msg
    case OwnerOf(tokenId, inc) =>
      QueryOwnerOf(s, block, tokenId, IncludeExpired(inc)).MapOk(r => Msg.OwnerOfResult(r))
    case Approval(tokenId, spender, inc) =>
      QueryApproval(s, block, tokenId, spender, IncludeExpired(inc)).MapOk(r => Msg.ApprovalResult(r))
    case Approvals(tokenId, inc) =>
      QueryApprovals(s, block, tokenId, IncludeExpired(inc)).MapOk(r => Msg.ApprovalsResult(r))
    case Operator(owner, operator, inc) =>
      QueryOperator(s, block, owner, operator, IncludeExpired(inc)).MapOk(r => Msg.OperatorResult(r))
    case AllOperators(owner, inc, startAfter, limit) =>
      QueryOperators(s, block, owner, IncludeExpired(inc), startAfter, limit).MapOk(r => Msg.OperatorsResult(r))
    case NumTokens =>
      QueryNumTokens(s).MapOk(r => Msg.NumTokensResult(r))
    case NftInfo(tokenId) =>
      QueryNftInfo(s, tokenId).MapOk(r => Msg.NftInfoResult(r))
    case AllNftInfo(tokenId, inc) =>
      QueryAllNftInfo(s, block, tokenId, IncludeExpired(inc)).MapOk(r => Msg.AllNftInfoResult(r))
    case Tokens(owner, startAfter, limit) =>
      QueryTokens(s, owner, startAfter, limit).MapOk(r => Msg.TokensResult(r))
    case AllTokens(startAfter, limit) =>
      QueryAllTokens(s, startAfter, limit).MapOk(r => Msg.TokensResult(r))
    case GetWithdrawAddress =>
      QueryWithdrawAddress(s).MapOk(r => Msg.WithdrawAddressResult(r))
  }

  /** OwnerOf names the token's owner and fails when the token does not exist. */
  lemma OwnerOfReturnsOwner<E>(s: Storage<E>, block: BlockInfo, tokenId: string, inc: Option<bool>)
    ensures var r := Handle(s, block, Msg.OwnerOf(tokenId, inc));
      && (r.Err? <==> tokenId !in s.nftInfo)
      && (r.Ok? ==> r.value.OwnerOfResult? && r.value.ownerOf.owner == s.nftInfo[tokenId].owner)
  {
  }

  /** The OwnerOf message is answered by the owner-of query. */
  lemma OwnerOfRouted<E>(s: Storage<E>, block: BlockInfo, tokenId: string, inc: Option<bool>)
    ensures Handle(s, block, Msg.OwnerOf(tokenId, inc))
            == QueryOwnerOf(s, block, tokenId, IncludeExpired(inc)).MapOk(r => Msg.OwnerOfResult(r))
  {
    var msg := Msg.OwnerOf(tokenId, inc);
    assert msg.tokenId == tokenId && msg.includeExpired == inc;
  }

  /** OwnerOf lists the token's stored approvals in stored order, each as
      often as it is stored, leaving out exactly the expired ones unless
      `includeExpired` is explicitly true. */
  lemma OwnerOfAnswersFilteredApprovals<E>(s: Storage<E>, block: BlockInfo, tokenId: string, inc: Option<bool>)
    ensures var r := Handle(s, block, Msg.OwnerOf(tokenId, inc));
      tokenId in s.nftInfo ==>
        var stored := s.nftInfo[tokenId].approvals;
        && r.Ok? && r.value.OwnerOfResult?
        && Subsequence(r.value.ownerOf.approvals, stored)
        && (forall a :: a in r.value.ownerOf.approvals <==>
              a in stored && (inc == Some(true) || !a.IsExpired(block)))
        && (forall a :: a in stored && (inc == Some(true) || !a.IsExpired(block)) ==>
              multiset(r.value.ownerOf.approvals)[a] == multiset(stored)[a])
        && (inc == Some(true) ==> r.value.ownerOf.approvals == stored)
  {
    OwnerOfRouted(s, block, tokenId, inc);
  }

  /** Any AllOperators message is answered by the operators query on its fields. */
  lemma AllOperatorsMessageRouted<E>(s: Storage<E>, block: BlockInfo, msg: Msg.QueryMsg)
    requires msg.AllOperators?
    ensures Handle(s, block, msg) == Ok(Msg.OperatorsResult(
              QueryOperators(s, block, msg.owner, IncludeExpired(msg.includeExpired), msg.startAfter, msg.limit).value))
  {
  }

  /** The AllOperators message is answered by the operators query. */
  lemma AllOperatorsRouted<E>(s: Storage<E>, block: BlockInfo, owner: string,
                              inc: Option<bool>, startAfter: Option<string>, limit: Option<u32>)
    ensures Handle(s, block, Msg.AllOperators(owner, inc, startAfter, limit))
            == QueryOperators(s, block, owner, IncludeExpired(inc), startAfter, limit).MapOk(r => Msg.OperatorsResult(r))
  {
    AllOperatorsMessageRouted(s, block, Msg.AllOperators(owner, inc, startAfter, limit));
  }

  /** Under the message's reading of `includeExpired`, an entry passes the
      expiry filter exactly when `includeExpired` is explicitly true or the
      entry has not expired. */
  lemma ShownUnderFlag(inc: Option<bool>, block: BlockInfo, e: Expiration)
    ensures Shown(IncludeExpired(inc), e, block) <==> (inc == Some(true) || !e.IsExpired(block))
  {
  }

  /** AllOperators lists `owner`'s grants after `startAfter` in ascending
      operator order, at most the effective limit of them, each with its
      stored expiration, leaving out expired ones unless `includeExpired` is
      explicitly true.  That no listable grant is skipped is
      `QueryProperties.OperatorsPageIsComplete`, carried over by
      `AllOperatorsRouted`. */
  lemma AllOperatorsAnswersPage<E>(s: Storage<E>, block: BlockInfo, owner: string, inc: Option<bool>,
                                   startAfter: Option<string>, limit: Option<u32>)
    ensures var r := Handle(s, block, Msg.AllOperators(owner, inc, startAfter, limit));
      && r.Ok? && r.value.OperatorsResult?
      && var ops := r.value.operators.operators;
      && |ops| <= EffectiveLimit(limit)
      && (forall i, j :: 0 <= i < j < |ops| ==> Less(ops[i].spender, ops[j].spender))
      && (forall i :: 0 <= i < |ops| ==>
            && (owner, ops[i].spender) in s.operators
            && ops[i].expires == s.operators[(owner, ops[i].spender)]
            && After(startAfter, ops[i].spender)
            && (inc == Some(true) || !ops[i].IsExpired(block)))
  {
    AllOperatorsMessageRouted(s, block, Msg.AllOperators(owner, inc, startAfter, limit));
    forall e {
      ShownUnderFlag(inc, block, e);
    }
  }

  /** Operator returns the stored grant and fails when it is not set (or is
      expired and expired grants were not asked for). */
  lemma OperatorFailsWhenNotSet<E>(s: Storage<E>, block: BlockInfo, owner: string, operator: string,
                                   inc: Option<bool>)
    ensures var r := Handle(s, block, Msg.Operator(owner, operator, inc));
      && ((owner, operator) !in s.operators ==> r == Err(APPROVAL_NOT_FOUND))
      && (r.Err? <==> (owner, operator) !in s.operators
                      || (inc != Some(true) && s.operators[(owner, operator)].IsExpired(block)))
      && (r.Ok? ==> r.value.OperatorResult?
                    && r.value.operator.approval == Approval(operator, s.operators[(owner, operator)]))
  {
  }

  /** Tokens lists nothing for an owner without tokens (given a consistent
      owner index). */
  lemma TokensEmptyWhenOwnerHasNone<E>(s: Storage<E>, block: BlockInfo, owner: string,
                                       startAfter: Option<string>, limit: Option<u32>)
    requires IndexConsistent(s)
    requires forall t :: t in s.nftInfo ==> s.nftInfo[t].owner != owner
    ensures Handle(s, block, Msg.Tokens(owner, startAfter, limit)) == Ok(Msg.TokensResult(Msg.TokensResponse([])))
  {
    QueryProperties.TokensEmptyForOwnerWithoutTokens(s, owner, startAfter, limit);
  }

  /** AllNftInfo answers exactly what OwnerOf and NftInfo answer for the same
      token. */
  lemma AllNftInfoIsOwnerOfAndNftInfo<E>(s: Storage<E>, block: BlockInfo, tokenId: string, inc: Option<bool>)
    ensures var all := Handle(s, block, Msg.AllNftInfo(tokenId, inc));
      var owner := Handle(s, block, Msg.OwnerOf(tokenId, inc));
      var info := Handle(s, block, Msg.NftInfo(tokenId));
      && (all.Err? <==> owner.Err?) && (all.Err? <==> info.Err?)
      && (all.Ok? ==> && owner.Ok? && owner.value.OwnerOfResult?
                      && info.Ok? && info.value.NftInfoResult?
                      && all.value == Msg.AllNftInfoResult(
                           Msg.AllNftInfoResponse(owner.value.ownerOf, info.value.nftInfo)))
  {
    var i := IncludeExpired(inc);
    var q := QueryAllNftInfo(s, block, tokenId, i);
    assert Handle(s, block, Msg.AllNftInfo(tokenId, inc))
        == (if q.Ok? then Ok(Msg.AllNftInfoResult(q.value)) else Err(q.error));
    var o := QueryOwnerOf(s, block, tokenId, i);
    assert Handle(s, block, Msg.OwnerOf(tokenId, inc))
        == (if o.Ok? then Ok(Msg.OwnerOfResult(o.value)) else Err(o.error));
    var n := QueryNftInfo(s, tokenId);
    assert Handle(s, block, Msg.NftInfo(tokenId))
        == (if n.Ok? then Ok(Msg.NftInfoResult(n.value)) else Err(n.error));
  }

  /** NumTokens answers the stored token counter. */
  lemma NumTokensAnswersCounter<E>(s: Storage<E>, block: BlockInfo)
    ensures Handle(s, block, Msg.NumTokens) == Ok(Msg.NumTokensResult(Msg.NumTokensResponse(s.tokenCount)))
  {
    assert Handle(s, block, Msg.NumTokens) == Ok(Msg.NumTokensResult(QueryNumTokens(s).value));
  }

  /** GetWithdrawAddress answers the stored withdraw address. */
  lemma WithdrawAddressAnswersStored<E>(s: Storage<E>, block: BlockInfo)
    ensures Handle(s, block, Msg.GetWithdrawAddress) == Ok(Msg.WithdrawAddressResult(s.withdrawAddress))
  {
    assert Handle(s, block, Msg.GetWithdrawAddress) == Ok(Msg.WithdrawAddressResult(QueryWithdrawAddress(s).value));
  }

  /** NftInfo answers the token's URI and extension, and fails when the token
      does not exist. */
  lemma NftInfoAnswersTokenData<E>(s: Storage<E>, block: BlockInfo, tokenId: string)
    ensures var r := Handle(s, block, Msg.NftInfo(tokenId));
      && (tokenId !in s.nftInfo ==> r == Err(TOKEN_NOT_FOUND))
      && (tokenId in s.nftInfo ==>
            r == Ok(Msg.NftInfoResult(Msg.NftInfoResponse(s.nftInfo[tokenId].tokenUri, s.nftInfo[tokenId].extension))))
  {
    var q := QueryNftInfo(s, tokenId);
    assert Handle(s, block, Msg.NftInfo(tokenId)) == (if q.Ok? then Ok(Msg.NftInfoResult(q.value)) else Err(q.error));
  }

  /** Approvals answers the token's stored approvals, in stored order, with
      the expired ones left out unless `includeExpired` is true. */
  lemma ApprovalsAnswersFilteredApprovals<E>(s: Storage<E>, block: BlockInfo, tokenId: string, inc: Option<bool>)
    ensures var r := Handle(s, block, Msg.Approvals(tokenId, inc));
      && (tokenId !in s.nftInfo ==> r == Err(TOKEN_NOT_FOUND))
      && (tokenId in s.nftInfo ==>
            var stored := s.nftInfo[tokenId].approvals;
            && r.Ok? && r.value.ApprovalsResult?
            && Subsequence(r.value.approvals.approvals, stored)
            && (forall a :: a in r.value.approvals.approvals <==>
                  a in stored && (inc == Some(true) || !a.IsExpired(block)))
            && (forall a :: a in stored && (inc == Some(true) || !a.IsExpired(block)) ==>
                  multiset(r.value.approvals.approvals)[a] == multiset(stored)[a]))
  {
    var q := QueryApprovals(s, block, tokenId, IncludeExpired(inc));
    assert Handle(s, block, Msg.Approvals(tokenId, inc))
        == (if q.Ok? then Ok(Msg.ApprovalsResult(q.value)) else Err(q.error));
  }

  /** The Approval message is answered by the approval query. */
  lemma ApprovalRouted<E>(s: Storage<E>, block: BlockInfo, tokenId: string, spender: string, inc: Option<bool>)
    ensures Handle(s, block, Msg.Approval(tokenId, spender, inc))
            == QueryApproval(s, block, tokenId, spender, IncludeExpired(inc)).MapOk(r => Msg.ApprovalResult(r))
  {
    var msg := Msg.Approval(tokenId, spender, inc);
    assert msg.tokenId == tokenId && msg.spender == spender && msg.includeExpired == inc;
  }

  /** Approval answers an approval of the requested spender: the owner's own
      never-expiring one, or else the first stored approval of the spender
      that passes the expiry filter; it fails when there is none. */
  lemma ApprovalAnswersSpender<E>(s: Storage<E>, block: BlockInfo, tokenId: string, spender: string,
                                  inc: Option<bool>)
    ensures var r := Handle(s, block, Msg.Approval(tokenId, spender, inc));
      && (tokenId !in s.nftInfo ==> r == Err(TOKEN_NOT_FOUND))
      && (tokenId in s.nftInfo && s.nftInfo[tokenId].owner == spender ==>
            r == Ok(Msg.ApprovalResult(Msg.ApprovalResponse(Approval(spender, Never)))))
      && (tokenId in s.nftInfo ==>
            (r.Ok? <==> s.nftInfo[tokenId].owner == spender
                        || exists a :: a in s.nftInfo[tokenId].approvals && a.spender == spender
                                       && (inc == Some(true) || !a.IsExpired(block))))
      && (tokenId in s.nftInfo && r.Err? ==> r.error == APPROVAL_NOT_FOUND)
      && (r.Ok? ==> r.value.ApprovalResult? && r.value.approval.approval.spender == spender)
      && (tokenId in s.nftInfo && s.nftInfo[tokenId].owner != spender && r.Ok? ==>
            var stored := s.nftInfo[tokenId].approvals;
            exists k :: 0 <= k < |stored| && stored[k] == r.value.approval.approval
                        && stored[k].spender == spender && (inc == Some(true) || !stored[k].IsExpired(block))
                        && forall j :: 0 <= j < k ==>
                             !(stored[j].spender == spender && (inc == Some(true) || !stored[j].IsExpired(block))))
  {
    ApprovalRouted(s, block, tokenId, spender, inc);
    if tokenId in s.nftInfo && s.nftInfo[tokenId].owner != spender {
      QueryProperties.ApprovalIsFirstShownMatch(s, block, tokenId, spender, IncludeExpired(inc));
    }
  }

  /** Any Tokens message is answered by the tokens query on its fields. */
  lemma TokensMessageRouted<E>(s: Storage<E>, block: BlockInfo, msg: Msg.QueryMsg)
    requires msg.Tokens?
    ensures Handle(s, block, msg) == Ok(Msg.TokensResult(QueryTokens(s, msg.owner, msg.startAfter, msg.limit).value))
  {
  }

  /** The Tokens message is answered by the tokens query. */
  lemma TokensRouted<E>(s: Storage<E>, block: BlockInfo, owner: string,
                        startAfter: Option<string>, limit: Option<u32>)
    ensures Handle(s, block, Msg.Tokens(owner, startAfter, limit))
            == QueryTokens(s, owner, startAfter, limit).MapOk(r => Msg.TokensResult(r))
  {
    TokensMessageRouted(s, block, Msg.Tokens(owner, startAfter, limit));
  }

  /** Any AllTokens message is answered by the all-tokens query on its fields. */
  lemma AllTokensMessageRouted<E>(s: Storage<E>, block: BlockInfo, msg: Msg.QueryMsg)
    requires msg.AllTokens?
    ensures Handle(s, block, msg) == Ok(Msg.TokensResult(QueryAllTokens(s, msg.startAfter, msg.limit).value))
  {
  }

  /** The AllTokens message is answered by the all-tokens query. */
  lemma AllTokensRouted<E>(s: Storage<E>, block: BlockInfo, startAfter: Option<string>, limit: Option<u32>)
    ensures Handle(s, block, Msg.AllTokens(startAfter, limit))
            == QueryAllTokens(s, startAfter, limit).MapOk(r => Msg.TokensResult(r))
  {
    AllTokensMessageRouted(s, block, Msg.AllTokens(startAfter, limit));
  }

  /** AllTokens answers at most the effective limit of stored ids, strictly
      ascending, all after `startAfter`. */
  lemma AllTokensAnswersPage<E>(s: Storage<E>, block: BlockInfo, startAfter: Option<string>, limit: Option<u32>)
    ensures var r := Handle(s, block, Msg.AllTokens(startAfter, limit));
      && r.Ok? && r.value.TokensResult?
      && |r.value.tokens.tokens| <= EffectiveLimit(limit)
      && StrictlyAscending(r.value.tokens.tokens)
      && (forall t :: t in r.value.tokens.tokens ==> t in s.nftInfo && After(startAfter, t))
  {
    AllTokensRouted(s, block, startAfter, limit);
  }

  /** Tokens answers at most the effective limit of ids the owner index files
      under `owner`, strictly ascending, all after `startAfter`. */
  lemma TokensAnswersPage<E>(s: Storage<E>, block: BlockInfo, owner: string,
                             startAfter: Option<string>, limit: Option<u32>)
    ensures var r := Handle(s, block, Msg.Tokens(owner, startAfter, limit));
      && r.Ok? && r.value.TokensResult?
      && |r.value.tokens.tokens| <= EffectiveLimit(limit)
      && StrictlyAscending(r.value.tokens.tokens)
      && (forall t :: t in r.value.tokens.tokens ==> (owner, t) in s.ownerIndex && After(startAfter, t))
  {
    TokensRouted(s, block, owner, startAfter, limit);
  }
}
