/** The read side of the registry: every query loads from one storage snapshot
    and shapes a response; nothing is written. */
module Query {
  import opened Wrappers
  import opened CosmStd
  import opened Seqs
  import opened LexOrder
  import opened Pagination
  import opened Expiry
  import opened State
  import Msg

  /** Failure of a token-record load for an id that is not stored. */
  const TOKEN_NOT_FOUND: StdError := NotFound("NftInfo")
  /** Failure of an approval or operator lookup. */
  const APPROVAL_NOT_FOUND: StdError := NotFound("Approval not found")

  /** The expiry filter: an entry is listed when expired entries were asked
      for or when it has not expired. */
  predicate Shown(includeExpired: bool, e: Expiration, block: BlockInfo) {
    includeExpired || !e.IsExpired(block)
  }

  /** Builds an approval from a stored (operator, expiration) entry. */
  function ParseApproval(spender: string, expires: Expiration): (a: Approval)
    ensures a.spender == spender && a.expires == expires
  {
    Approval(spender, expires)
  }

  /** The response form of a stored approval: a field-for-field copy. */
  function HumanizeApproval(approval: Approval): (r: Approval)
    ensures r == approval
  {
    Approval(approval.spender, approval.expires)
  }

  /** Copies every approval of a list into its response form. */
  function HumanizeAll(approvals: seq<Approval>): (r: seq<Approval>)
    ensures r == approvals
  {
    seq(|approvals|, i requires 0 <= i < |approvals| => HumanizeApproval(approvals[i]))
  }

  /** A token's approvals as listed in responses: the stored list in its own
      order, less the expired entries unless those were asked for. */
  function HumanizeApprovals<E>(block: BlockInfo, info: NftInfo<E>, includeExpired: bool): (r: seq<Approval>)
    ensures Subsequence(r, info.approvals)
    ensures forall a :: a in r <==> a in info.approvals && Shown(includeExpired, a.expires, block)
    ensures forall a :: a in info.approvals && Shown(includeExpired, a.expires, block) ==>
              multiset(r)[a] == multiset(info.approvals)[a]
    ensures includeExpired ==> r == info.approvals
  {
    HumanizeAll(Filter(info.approvals, (a: Approval) => Shown(includeExpired, a.expires, block)))
  }

  function QueryNumTokens<E>(s: Storage<E>): (r: StdResult<Msg.NumTokensResponse>)
    ensures r.Ok? && r.value.count == s.tokenCount
  {
    Ok(Msg.NumTokensResponse(s.tokenCount))
  }

  function QueryNftInfo<E>(s: Storage<E>, tokenId: string): (r: StdResult<Msg.NftInfoResponse<E>>)
    ensures r.Err? <==> tokenId !in s.nftInfo
    ensures r.Err? ==> r.error == TOKEN_NOT_FOUND
    ensures r.Ok? ==> r.value.tokenUri == s.nftInfo[tokenId].tokenUri
                      && r.value.extension == s.nftInfo[tokenId].extension
  {
    if tokenId !in s.nftInfo then Err(TOKEN_NOT_FOUND)
    else
      var info := s.nftInfo[tokenId];
      Ok(Msg.NftInfoResponse(info.tokenUri, info.extension))
  }

  function QueryOwnerOf<E>(s: Storage<E>, block: BlockInfo, tokenId: string, includeExpired: bool)
    : (r: StdResult<Msg.OwnerOfResponse>)
    ensures r.Err? <==> tokenId !in s.nftInfo
    ensures r.Err? ==> r.error == TOKEN_NOT_FOUND
    ensures r.Ok? ==> r.value.owner == s.nftInfo[tokenId].owner
    ensures r.Ok? ==> Subsequence(r.value.approvals, s.nftInfo[tokenId].approvals)
    ensures r.Ok? ==> forall a :: a in r.value.approvals <==>
              a in s.nftInfo[tokenId].approvals && Shown(includeExpired, a.expires, block)
    ensures r.Ok? ==> forall a :: a in s.nftInfo[tokenId].approvals && Shown(includeExpired, a.expires, block) ==>
              multiset(r.value.approvals)[a] == multiset(s.nftInfo[tokenId].approvals)[a]
    ensures r.Ok? && includeExpired ==> r.value.approvals == s.nftInfo[tokenId].approvals
  {
    if tokenId !in s.nftInfo then Err(TOKEN_NOT_FOUND)
    else
      var info := s.nftInfo[tokenId];
      Ok(Msg.OwnerOfResponse(info.owner, HumanizeApprovals(block, info, includeExpired)))
  }

  /** The operator grant of `owner` to `operator`, unless it is missing or,
      when expired grants were not asked for, expired. */
  function QueryOperator<E>(s: Storage<E>, block: BlockInfo, owner: string, operator: string, includeExpired: bool)
    : (r: StdResult<Msg.OperatorResponse>)
    ensures r.Err? <==> (owner, operator) !in s.operators
                        || !Shown(includeExpired, s.operators[(owner, operator)], block)
    ensures r.Err? ==> r.error == APPROVAL_NOT_FOUND
    ensures r.Ok? ==> r.value.approval.spender == operator
                      && r.value.approval.expires == s.operators[(owner, operator)]
  {
    var info := if (owner, operator) in s.operators then Some(s.operators[(owner, operator)]) else None;
    if info.Some? then
      if !includeExpired && info.value.IsExpired(block) then Err(APPROVAL_NOT_FOUND)
      else Ok(Msg.OperatorResponse(Approval(operator, info.value)))
    else Err(APPROVAL_NOT_FOUND)
  }

  /** The operator grants `owner` has given, keyed by operator: the
      `owner` prefix of the operator key space. */
  function OperatorsOf<E>(s: Storage<E>, owner: string): (m: map<string, Expiration>)
    ensures forall op :: op in m <==> (owner, op) in s.operators
    ensures forall op :: op in m ==> m[op] == s.operators[(owner, op)]
  {
    var ops := set k | k in s.operators && k.0 == owner :: k.1;
    assert forall op :: op in ops <==> (owner, op) in s.operators by {
      forall op ensures op in ops <==> (owner, op) in s.operators {
        if (owner, op) in s.operators { assert (owner, op).1 == op; }
      }
    }
    map op | op in ops :: s.operators[(owner, op)]
  }

  /** The operators of `grants` after `startAfter` that pass the expiry
      filter, in ascending order: the filtered range scan. */
  function ShownOperators(grants: map<string, Expiration>, block: BlockInfo, includeExpired: bool,
                          startAfter: Option<string>): (r: seq<string>)
    ensures StrictlyAscending(r)
    ensures forall op :: op in r <==> op in grants && After(startAfter, op)
                                      && Shown(includeExpired, grants[op], block)
  {
    var scan := Range(grants.Keys, startAfter);
    FilterAscending(scan, op => op in grants && Shown(includeExpired, grants[op], block));
    Filter(scan, op => op in grants && Shown(includeExpired, grants[op], block))
  }

  /** Pairs each operator of `page` with its grant's expiration. */
  function ParseApprovals(grants: map<string, Expiration>, page: seq<string>): (r: seq<Approval>)
    requires forall op :: op in page ==> op in grants
    ensures |r| == |page|
    ensures forall i :: 0 <= i < |r| ==> r[i].spender == page[i] && r[i].expires == grants[page[i]]
  {
    seq(|page|, i requires 0 <= i < |page| => ParseApproval(page[i], grants[page[i]]))
  }

  /** A page of the filtered scan is ascending and holds only shown grants. */
  lemma ShownPageFacts(grants: map<string, Expiration>, block: BlockInfo, includeExpired: bool,
                       startAfter: Option<string>, n: nat)
    ensures var page := Take(ShownOperators(grants, block, includeExpired, startAfter), n);
      && StrictlyAscending(page)
      && forall op :: op in page ==>
           op in grants && After(startAfter, op) && Shown(includeExpired, grants[op], block)
  {
    var shown := ShownOperators(grants, block, includeExpired, startAfter);
    assert forall op :: op in Take(shown, n) ==> op in shown;
  }

  /** The facts about a page of the filtered scan that its parsed form carries. */
  lemma ParsedPageFacts(grants: map<string, Expiration>, block: BlockInfo, includeExpired: bool,
                        startAfter: Option<string>, page: seq<string>)
    requires StrictlyAscending(page)
    requires forall op :: op in page ==>
               op in grants && After(startAfter, op) && Shown(includeExpired, grants[op], block)
    ensures var r := ParseApprovals(grants, page);
      && (forall i, j :: 0 <= i < j < |r| ==> Less(r[i].spender, r[j].spender))
      && (forall i :: 0 <= i < |r| ==>
            && r[i].spender in grants
            && r[i].expires == grants[r[i].spender]
            && After(startAfter, r[i].spender)
            && Shown(includeExpired, r[i].expires, block))
  {
    var r := ParseApprovals(grants, page);
    assert forall i :: 0 <= i < |r| ==> page[i] in page;
  }

  /** The first `n` grants of `grants` after `startAfter` that pass the
      expiry filter, in ascending operator order. */
  function OperatorsPage(grants: map<string, Expiration>, block: BlockInfo, includeExpired: bool,
                         startAfter: Option<string>, n: nat): (r: seq<Approval>)
    ensures |r| <= n
    ensures forall i, j :: 0 <= i < j < |r| ==> Less(r[i].spender, r[j].spender)
    ensures forall i :: 0 <= i < |r| ==>
              && r[i].spender in grants
              && r[i].expires == grants[r[i].spender]
              && After(startAfter, r[i].spender)
              && Shown(includeExpired, r[i].expires, block)
  {
    var page := Take(ShownOperators(grants, block, includeExpired, startAfter), n);
    ShownPageFacts(grants, block, includeExpired, startAfter, n);
    ParsedPageFacts(grants, block, includeExpired, startAfter, page);
    ParseApprovals(grants, page)
  }

  /** One page of `owner`'s operator grants in ascending operator order after
      `startAfter`; the expiry filter is applied before the page is cut. */
  function QueryOperators<E>(s: Storage<E>, block: BlockInfo, owner: string, includeExpired: bool,
                             startAfter: Option<string>, limit: Option<u32>)
    : (r: StdResult<Msg.OperatorsResponse>)
    ensures r.Ok?
    ensures |r.value.operators| <= EffectiveLimit(limit)
    ensures forall i, j :: 0 <= i < j < |r.value.operators| ==>
              Less(r.value.operators[i].spender, r.value.operators[j].spender)
    ensures forall i :: 0 <= i < |r.value.operators| ==>
              var a := r.value.operators[i];
              && (owner, a.spender) in s.operators
              && a.expires == s.operators[(owner, a.spender)]
              && After(startAfter, a.spender)
              && Shown(includeExpired, a.expires, block)
  {
    var grants := OperatorsOf(s, owner);
    Ok(Msg.OperatorsResponse(OperatorsPage(grants, block, includeExpired, startAfter, EffectiveLimit(limit))))
  }

  /** An approval of `spender` over `tokenId`: the owner's own implicit,
      never-expiring one, else the first stored approval for `spender` that
      passes the expiry filter. */
  function QueryApproval<E>(s: Storage<E>, block: BlockInfo, tokenId: string, spender: string, includeExpired: bool)
    : (r: StdResult<Msg.ApprovalResponse>)
    ensures tokenId !in s.nftInfo ==> r == Err(TOKEN_NOT_FOUND)
    ensures tokenId in s.nftInfo && s.nftInfo[tokenId].owner == spender ==>
              r == Ok(Msg.ApprovalResponse(Approval(spender, Never)))
    ensures tokenId in s.nftInfo ==>
              (r.Ok? <==> s.nftInfo[tokenId].owner == spender
                          || exists a :: a in s.nftInfo[tokenId].approvals && a.spender == spender
                                         && Shown(includeExpired, a.expires, block))
    ensures tokenId in s.nftInfo && r.Err? ==> r.error == APPROVAL_NOT_FOUND
    ensures r.Ok? ==> r.value.approval.spender == spender
  {
    if tokenId !in s.nftInfo then Err(TOKEN_NOT_FOUND)
    else
      var token := s.nftInfo[tokenId];
      if token.owner == spender then Ok(Msg.ApprovalResponse(Approval(token.owner, Never)))
      else
        var bySpender := Filter(token.approvals, (a: Approval) => a.spender == spender);
        var filtered := Filter(bySpender, (a: Approval) => Shown(includeExpired, a.expires, block));
        if |filtered| == 0 then Err(APPROVAL_NOT_FOUND)
        else
          assert filtered[0] in filtered;
          Ok(Msg.ApprovalResponse(HumanizeApproval(filtered[0])))
  }

  /** All approvals of `tokenId`, in stored order, filtered by expiry. */
  function QueryApprovals<E>(s: Storage<E>, block: BlockInfo, tokenId: string, includeExpired: bool)
    : (r: StdResult<Msg.ApprovalsResponse>)
    ensures r.Err? <==> tokenId !in s.nftInfo
    ensures r.Err? ==> r.error == TOKEN_NOT_FOUND
    ensures r.Ok? ==> Subsequence(r.value.approvals, s.nftInfo[tokenId].approvals)
    ensures r.Ok? ==> forall a :: a in r.value.approvals <==>
              a in s.nftInfo[tokenId].approvals && Shown(includeExpired, a.expires, block)
    ensures r.Ok? ==> forall a :: a in s.nftInfo[tokenId].approvals && Shown(includeExpired, a.expires, block) ==>
              multiset(r.value.approvals)[a] == multiset(s.nftInfo[tokenId].approvals)[a]
    ensures r.Ok? && includeExpired ==> r.value.approvals == s.nftInfo[tokenId].approvals
  {
    if tokenId !in s.nftInfo then Err(TOKEN_NOT_FOUND)
    else
      var token := s.nftInfo[tokenId];
      var approvals := HumanizeAll(Filter(token.approvals, (a: Approval) => Shown(includeExpired, a.expires, block)));
      Ok(Msg.ApprovalsResponse(approvals))
  }

  /** The token ids the owner index files under `owner`. */
  function IndexedTokens<E>(s: Storage<E>, owner: string): (ids: set<string>)
    ensures forall t :: t in ids <==> (owner, t) in s.ownerIndex
  {
    var ids := set k | k in s.ownerIndex && k.0 == owner :: k.1;
    assert forall t :: (owner, t) in s.ownerIndex ==> t in ids by {
      forall t | (owner, t) in s.ownerIndex ensures t in ids {
        assert (owner, t).1 == t;
      }
    }
    ids
  }

  /** One page of the ids the owner index lists for `owner`, ascending, after
      `startAfter`. */
  function QueryTokens<E>(s: Storage<E>, owner: string, startAfter: Option<string>, limit: Option<u32>)
    : (r: StdResult<Msg.TokensResponse>)
    ensures r.Ok?
    ensures |r.value.tokens| <= EffectiveLimit(limit)
    ensures StrictlyAscending(r.value.tokens)
    ensures forall t :: t in r.value.tokens ==> (owner, t) in s.ownerIndex && After(startAfter, t)
  {
    Ok(Msg.TokensResponse(PageOf(IndexedTokens(s, owner), startAfter, EffectiveLimit(limit))))
  }

  /** One page of all stored token ids, ascending, after `startAfter`. */
  function QueryAllTokens<E>(s: Storage<E>, startAfter: Option<string>, limit: Option<u32>)
    : (r: StdResult<Msg.TokensResponse>)
    ensures r.Ok?
    ensures |r.value.tokens| <= EffectiveLimit(limit)
    ensures StrictlyAscending(r.value.tokens)
    ensures forall t :: t in r.value.tokens ==> t in s.nftInfo && After(startAfter, t)
  {
    Ok(Msg.TokensResponse(PageOf(s.nftInfo.Keys, startAfter, EffectiveLimit(limit))))
  }

  /** The owner-of answer and the token data of one token, from one load. */
  function QueryAllNftInfo<E>(s: Storage<E>, block: BlockInfo, tokenId: string, includeExpired: bool)
    : (r: StdResult<Msg.AllNftInfoResponse<E>>)
    ensures r.Err? <==> tokenId !in s.nftInfo
    ensures r.Err? ==> r.error == TOKEN_NOT_FOUND
    ensures r.Ok? ==> Ok(r.value.access) == QueryOwnerOf(s, block, tokenId, includeExpired)
    ensures r.Ok? ==> Ok(r.value.info) == QueryNftInfo(s, tokenId)
  {
    if tokenId !in s.nftInfo then Err(TOKEN_NOT_FOUND)
    else
      var info := s.nftInfo[tokenId];
      Ok(Msg.AllNftInfoResponse(
        Msg.OwnerOfResponse(info.owner, HumanizeApprovals(block, info, includeExpired)),
        Msg.NftInfoResponse(info.tokenUri, info.extension)))
  }

  function QueryWithdrawAddress<E>(s: Storage<E>): (r: StdResult<Option<string>>)
    ensures r.Ok? && r.value == s.withdrawAddress
  {
    Ok(s.withdrawAddress)
  }
}
