/** Properties that relate the registry's queries to one another and to the
    stored records: first-match approval lookup, complete and resumable pages,
    and what the owner index promises when it is consistent. */
module QueryProperties {
  import opened Wrappers
  import opened CosmStd
  import opened Seqs
  import opened LexOrder
  import opened Pagination
  import opened Expiry
  import opened State
  import opened Query

  /** Apart from the owner's implicit approval, the approval lookup returns
      the first stored approval for the spender that passes the expiry filter. */
  lemma {:induction false} ApprovalIsFirstShownMatch<E>(s: Storage<E>, block: BlockInfo, tokenId: string,
                                                       spender: string, includeExpired: bool)
    requires tokenId in s.nftInfo && s.nftInfo[tokenId].owner != spender
    ensures var r := QueryApproval(s, block, tokenId, spender, includeExpired);
      var stored := s.nftInfo[tokenId].approvals;
      r.Ok? ==> exists i :: 0 <= i < |stored| && stored[i] == r.value.approval
                            && stored[i].spender == spender && Shown(includeExpired, stored[i].expires, block)
                            && forall j :: 0 <= j < i ==>
                                 !(stored[j].spender == spender && Shown(includeExpired, stored[j].expires, block))
  {
    var stored := s.nftInfo[tokenId].approvals;
    var bySpender := (a: Approval) => a.spender == spender;
    var shown := (a: Approval) => Shown(includeExpired, a.expires, block);
    var both := (a: Approval) => a.spender == spender && Shown(includeExpired, a.expires, block);
    FilterFilter(stored, bySpender, shown, both);
    if Filter(stored, both) != [] {
      var i := FilterHeadIsFirstMatch(stored, both);
    }
  }

  /** The approvals query lists the same approvals as the owner-of query. */
  lemma ApprovalsAgreeWithOwnerOf<E>(s: Storage<E>, block: BlockInfo, tokenId: string, includeExpired: bool)
    requires tokenId in s.nftInfo
    ensures QueryApprovals(s, block, tokenId, includeExpired).value.approvals
            == QueryOwnerOf(s, block, tokenId, includeExpired).value.approvals
  {
  }

  /** An operators page is the parsed page of the filtered scan. */
  lemma OperatorsPageIsParsedPage(grants: map<string, Expiration>, block: BlockInfo, includeExpired: bool,
                                  startAfter: Option<string>, n: nat)
    ensures var page := Take(ShownOperators(grants, block, includeExpired, startAfter), n);
      && (forall op :: op in page ==> op in grants)
      && OperatorsPage(grants, block, includeExpired, startAfter, n) == ParseApprovals(grants, page)
  {
    ShownPageFacts(grants, block, includeExpired, startAfter, n);
  }

  /** Parsing a prefix of an ascending scan keeps every scanned operator
      that was taken, and a full prefix ends before the ones left out. */
  lemma ParsedPrefixCovers(grants: map<string, Expiration>, shown: seq<string>, n: nat, operator: string)
    requires StrictlyAscending(shown)
    requires forall op :: op in shown ==> op in grants
    requires operator in shown
    ensures var ops := ParseApprovals(grants, Take(shown, n));
      (exists i :: 0 <= i < |ops| && ops[i].spender == operator)
      || (|ops| == n && (n == 0 || Less(ops[n - 1].spender, operator)))
  {
    var page := Take(shown, n);
    if operator in page {
      var i :| 0 <= i < |page| && page[i] == operator;
      assert ParseApprovals(grants, page)[i].spender == operator;
    } else {
      TakeMissesOnlyLater(shown, n, operator);
    }
  }

  /** On the level of one owner's grants: a grant that passes the filter and
      lies after `startAfter` is on the page, or the page is full and ends
      before it. */
  lemma OperatorsPageCovers(grants: map<string, Expiration>, block: BlockInfo, includeExpired: bool,
                            startAfter: Option<string>, n: nat, operator: string)
    requires operator in grants && After(startAfter, operator)
    requires Shown(includeExpired, grants[operator], block)
    ensures var ops := OperatorsPage(grants, block, includeExpired, startAfter, n);
      (exists i :: 0 <= i < |ops| && ops[i].spender == operator)
      || (|ops| == n && (n == 0 || Less(ops[n - 1].spender, operator)))
  {
    var shown := ShownOperators(grants, block, includeExpired, startAfter);
    OperatorsPageIsParsedPage(grants, block, includeExpired, startAfter, n);
    ParsedPrefixCovers(grants, shown, n, operator);
  }

  /** A grant of `owner` that passes the filter and lies after `startAfter`
      is on the operators page, or the page is full and ends before it. */
  lemma OperatorsPageIsComplete<E>(s: Storage<E>, block: BlockInfo, owner: string, includeExpired: bool,
                                   startAfter: Option<string>, limit: Option<u32>, operator: string)
    requires (owner, operator) in s.operators && After(startAfter, operator)
    requires Shown(includeExpired, s.operators[(owner, operator)], block)
    ensures var ops := QueryOperators(s, block, owner, includeExpired, startAfter, limit).value.operators;
      var n := EffectiveLimit(limit);
      (exists i :: 0 <= i < |ops| && ops[i].spender == operator)
      || (|ops| == n && (n == 0 || Less(ops[n - 1].spender, operator)))
  {
    OperatorsPageCovers(OperatorsOf(s, owner), block, includeExpired, startAfter, EffectiveLimit(limit), operator);
  }

  /** With a consistent owner index, every listed token belongs to `owner`. */
  lemma TokensAreOwnedBy<E>(s: Storage<E>, owner: string, startAfter: Option<string>, limit: Option<u32>)
    requires IndexConsistent(s)
    ensures forall t :: t in QueryTokens(s, owner, startAfter, limit).value.tokens ==>
              t in s.nftInfo && s.nftInfo[t].owner == owner
  {
  }

  /** With a consistent owner index, a token of `owner` after `startAfter` is
      on the page, or the page is full and ends before it. */
  lemma TokensPageIsComplete<E>(s: Storage<E>, owner: string, startAfter: Option<string>,
                                limit: Option<u32>, t: string)
    requires IndexConsistent(s)
    requires t in s.nftInfo && s.nftInfo[t].owner == owner && After(startAfter, t)
    ensures var tokens := QueryTokens(s, owner, startAfter, limit).value.tokens;
      var n := EffectiveLimit(limit);
      t in tokens || (|tokens| == n && (n == 0 || Less(tokens[n - 1], t)))
  {
    PageIsComplete(IndexedTokens(s, owner), startAfter, EffectiveLimit(limit), t);
  }

  /** An owner with no tokens gets an empty list. */
  lemma TokensEmptyForOwnerWithoutTokens<E>(s: Storage<E>, owner: string, startAfter: Option<string>,
                                            limit: Option<u32>)
    requires IndexConsistent(s)
    requires forall t :: t in s.nftInfo ==> s.nftInfo[t].owner != owner
    ensures QueryTokens(s, owner, startAfter, limit).value.tokens == []
  {
    assert IndexedTokens(s, owner) == {};
  }

  /** Passing the last id of a full tokens page as `startAfter` lists the ids
      that follow it: the two pages together are one longer page. */
  lemma TokensNextPageContinues<E>(s: Storage<E>, owner: string, startAfter: Option<string>,
                                   limit: Option<u32>, nextLimit: Option<u32>)
    requires var n := EffectiveLimit(limit);
      n > 0 && |QueryTokens(s, owner, startAfter, limit).value.tokens| == n
    ensures var first := QueryTokens(s, owner, startAfter, limit).value.tokens;
      var n := EffectiveLimit(limit);
      first + QueryTokens(s, owner, Some(first[n - 1]), nextLimit).value.tokens
      == PageOf(IndexedTokens(s, owner), startAfter, n + EffectiveLimit(nextLimit))
  {
    NextPageContinues(IndexedTokens(s, owner), startAfter, EffectiveLimit(limit), EffectiveLimit(nextLimit));
  }

  /** A stored id after `startAfter` is on the all-tokens page, or the page
      is full and ends before it. */
  lemma AllTokensPageIsComplete<E>(s: Storage<E>, startAfter: Option<string>, limit: Option<u32>, t: string)
    requires t in s.nftInfo && After(startAfter, t)
    ensures var tokens := QueryAllTokens(s, startAfter, limit).value.tokens;
      var n := EffectiveLimit(limit);
      t in tokens || (|tokens| == n && (n == 0 || Less(tokens[n - 1], t)))
  {
    PageIsComplete(s.nftInfo.Keys, startAfter, EffectiveLimit(limit), t);
  }

  /** Passing the last id of a full all-tokens page as `startAfter` lists the
      ids that follow it. */
  lemma AllTokensNextPageContinues<E>(s: Storage<E>, startAfter: Option<string>,
                                      limit: Option<u32>, nextLimit: Option<u32>)
    requires var n := EffectiveLimit(limit);
      n > 0 && |QueryAllTokens(s, startAfter, limit).value.tokens| == n
    ensures var first := QueryAllTokens(s, startAfter, limit).value.tokens;
      var n := EffectiveLimit(limit);
      first + QueryAllTokens(s, Some(first[n - 1]), nextLimit).value.tokens
      == PageOf(s.nftInfo.Keys, startAfter, n + EffectiveLimit(nextLimit))
  {
    NextPageContinues(s.nftInfo.Keys, startAfter, EffectiveLimit(limit), EffectiveLimit(nextLimit));
  }

  /** An explicit limit of 0 is not raised: every listing returns nothing. */
  lemma ZeroLimitGivesEmptyPages<E>(s: Storage<E>, block: BlockInfo, owner: string, includeExpired: bool,
                                    startAfter: Option<string>)
    ensures QueryTokens(s, owner, startAfter, Some(0)).value.tokens == []
    ensures QueryAllTokens(s, startAfter, Some(0)).value.tokens == []
    ensures QueryOperators(s, block, owner, includeExpired, startAfter, Some(0)).value.operators == []
  {
  }

  /** When the counter is consistent, the count is the number of stored
      token ids a full scan yields; when it is at most the page cap, one
      maximal all-tokens page lists them all. */
  lemma NumTokensCountsRecords<E>(s: Storage<E>)
    requires CountConsistent(s)
    ensures QueryNumTokens(s).value.count == |Range(s.nftInfo.Keys, None)|
    ensures s.tokenCount <= MAX_LIMIT ==>
              |QueryAllTokens(s, None, Some(MAX_LIMIT)).value.tokens| == QueryNumTokens(s).value.count
  {
    var all := Ascending(s.nftInfo.Keys);
    assert Range(s.nftInfo.Keys, None) == all;
  }
}
