# CW-721 registry queries and CW-2981 royalties, in Dafny

This project models the read side of the CW-721 non-fungible-token registry.
That is the query and pagination engine of `packages/cw721/src/query.rs`, the
response and query-message types of `packages/cw721/src/msg.rs`, and the
royalty query of the CW-2981 royalties contract.

Storage is one immutable snapshot (`State.Storage`). It holds:
- the token-record map, from token id to owner, approvals, token URI and extension;
- the owner secondary index, as a set of (owner, token id) pairs;
- the operator grants, from (owner, operator) to an expiration;
- the token counter;
- the optional withdraw address.

Every query is a pure function of that snapshot, the current block and its
arguments. It returns a `StdResult`, which is `Ok` or a `NotFound`/`Overflow`
error.

Modules:
- `Wrappers`: `Option` and `Result`.
- `CosmStd`: the fixed-width integers, `BlockInfo` and `StdError`.
- `Seqs`: order-preserving filter and take.
- `LexOrder`: the byte-wise (code-point) order on keys, and the ascending enumeration of a key set.
- `Pagination`: the effective page size, the exclusive `start_after` bound, and pages of a range scan.
- `Expiry`: the `Expiration` condition. It comes from the `cw_utils` library, whose code is not part of this model, so the module states the definition the registry relies on.
- `State`: the records and the snapshot.
- `Msg`: the response types and the query messages.
- `Query`: the queries.
- `QueryProperties`: lemmas that relate queries to each other and to storage.
- `Dispatch`: routes a query message to its query, with the message-level contracts.
- `Royalties`: the royalties extension.

Range scans over storage keys are `Pagination.Range`. It lists the keys of a
set in ascending byte order, strictly after `start_after`. A page is the first
`n` keys of that range. For operators, the expiry filter is applied before the
page is cut, as in the code.

## Model

| member | source | states |
|---|---|---|
| Pagination.EffectiveLimit | packages/cw721/src/query.rs:23-24 | the page size is 10 when no limit is given, the limit itself up to 1000, and 1000 above that; it never exceeds 1000 and is not raised from below |
| Pagination.Range | packages/cw721/src/query.rs:191-199 | a range scan lists exactly the stored keys strictly after `start_after`, in strictly ascending order |
| Pagination.PageOf | packages/cw721/src/query.rs:284-294 | a page holds at most `n` keys, strictly ascending, each stored and after `start_after` |
| Pagination.PageIsComplete | packages/cw721/src/query.rs:293-294 | a stored key after `start_after` is on the page, or the page is full and ends before it |
| Pagination.NextPageContinues | packages/cw721/src/query.rs:284-294 | resuming after the last key of a full page of `n` gives the keys that follow: the two pages concatenated equal one page of `n + m` |
| Pagination.RangeResumesAfterPage | packages/cw721/src/query.rs:284 | the range after the `n`-th key of a range is the rest of that range |
| Query.HumanizeApprovals | packages/cw721/src/query.rs:30-44 | the listed approvals are an order-preserving subsequence of the stored ones; an approval is listed iff it is stored and passes the expiry filter, with its stored multiplicity; with `includeExpired` the list is the stored list |
| Query.HumanizeApproval | packages/cw721/src/query.rs:46-51 | the response form of an approval equals the stored approval |
| Query.ParseApproval | packages/cw721/src/query.rs:26-28 | a stored (operator, expiration) entry becomes an approval with that spender and expiration |
| Query.QueryNumTokens | packages/cw721/src/query.rs:108-113 | the count is the stored token counter |
| Query.QueryNftInfo | packages/cw721/src/query.rs:115-132 | fails with NotFound iff the token is not stored; otherwise returns its token URI and extension |
| Query.QueryOwnerOf | packages/cw721/src/query.rs:134-148 | fails with NotFound iff the token is not stored; otherwise returns its owner and its approvals filtered by expiry: an order-preserving subsequence of the stored list holding every shown approval with its stored multiplicity and nothing else (the whole list with `includeExpired`) |
| Query.QueryOperator | packages/cw721/src/query.rs:150-179 | fails with "Approval not found" iff no grant of `owner` to `operator` is stored, or it is expired and expired grants were not asked for; otherwise returns spender = operator and the stored expiration |
| Query.OperatorsOf | packages/cw721/src/query.rs:196-198 | the `owner` prefix of the operator grants holds exactly that owner's grants |
| Query.ShownOperators | packages/cw721/src/query.rs:199-204 | the filtered scan lists exactly the owner's operators after `start_after` that pass the expiry filter, ascending |
| Query.ParseApprovals | packages/cw721/src/query.rs:206 | each listed operator is paired with its stored expiration, position by position |
| Query.OperatorsPage | packages/cw721/src/query.rs:199-207 | at most `n` grants, in strictly ascending operator order, each stored, after `start_after` and passing the expiry filter |
| Query.QueryOperators | packages/cw721/src/query.rs:181-209 | succeeds with at most the effective limit of grants, strictly ascending by operator, each an entry of `owner`'s stored grants, after `start_after`, and unexpired unless expired grants were asked for |
| Query.QueryApproval | packages/cw721/src/query.rs:211-250 | fails with NotFound for a missing token; the owner gets a never-expiring approval whatever the stored list holds; otherwise it succeeds iff some stored approval for the spender passes the expiry filter, fails with "Approval not found" when none does, and the returned spender is always the requested one |
| Query.QueryApprovals | packages/cw721/src/query.rs:252-274 | fails with NotFound iff the token is not stored; otherwise lists its approvals filtered by expiry: an order-preserving subsequence of the stored list holding every shown approval with its stored multiplicity and nothing else (the whole list with `includeExpired`) |
| Query.IndexedTokens | packages/cw721/src/query.rs:289-292 | the ids under `owner` in the owner index are exactly those paired with `owner` |
| Query.QueryTokens | packages/cw721/src/query.rs:276-298 | succeeds with at most the effective limit of ids, strictly ascending, each indexed under `owner` and after `start_after` |
| Query.QueryAllTokens | packages/cw721/src/query.rs:300-318 | succeeds with at most the effective limit of ids, strictly ascending, each stored and after `start_after` |
| Query.QueryAllNftInfo | packages/cw721/src/query.rs:320-344 | fails with NotFound iff the token is not stored; otherwise `access` is the owner-of answer and `info` the token-information answer for the same arguments |
| Query.QueryWithdrawAddress | packages/cw721/src/query.rs:346-350 | returns the stored withdraw address, or none |
| Query.ShownPageFacts | packages/cw721/src/query.rs:199-205 | a page of the filtered operator scan is ascending and holds only stored, shown grants after `start_after` |
| Query.ParsedPageFacts | packages/cw721/src/query.rs:206-207 | parsing a page keeps its operator order and pairs each operator with its stored expiration |
| QueryProperties.ApprovalIsFirstShownMatch | packages/cw721/src/query.rs:232-249 | for a spender other than the owner, the returned approval is the first stored approval, by position, whose spender matches and which passes the expiry filter |
| QueryProperties.ApprovalsAgreeWithOwnerOf | packages/cw721/src/query.rs:253-274 | the approvals query lists the same approvals as the owner-of query |
| QueryProperties.OperatorsPageCovers | packages/cw721/src/query.rs:199-205 | a grant that passes the filter and lies after `start_after` is on the page, or the page is full and ends before it (filtering precedes `take`) |
| QueryProperties.OperatorsPageIsComplete | packages/cw721/src/query.rs:190-207 | the same for the all-operators query of an owner with the effective limit |
| QueryProperties.TokensAreOwnedBy | packages/cw721/src/query.rs:287-295 | with a consistent owner index, every listed id is a stored token owned by `owner` |
| QueryProperties.TokensPageIsComplete | packages/cw721/src/query.rs:283-295 | with a consistent owner index, each token of `owner` after `start_after` is listed, or the page is full and ends before it |
| QueryProperties.TokensEmptyForOwnerWithoutTokens | packages/cw721/src/msg.rs:221-228 | with a consistent owner index, an owner with no tokens gets an empty list |
| QueryProperties.TokensNextPageContinues | packages/cw721/src/msg.rs:339-344 | resuming the tokens query after the last id of a full page continues the listing with no gap and no repetition |
| QueryProperties.AllTokensPageIsComplete | packages/cw721/src/query.rs:306-315 | each stored id after `start_after` is on the all-tokens page, or the page is full and ends before it |
| QueryProperties.AllTokensNextPageContinues | packages/cw721/src/msg.rs:229-236 | resuming the all-tokens query after the last id of a full page continues the listing with no gap and no repetition |
| QueryProperties.ZeroLimitGivesEmptyPages | packages/cw721/src/query.rs:190 | an explicit limit of 0 yields empty pages for tokens, all tokens and operators |
| QueryProperties.NumTokensCountsRecords | packages/cw721/src/query.rs:108-113 | with a consistent counter, the count equals the number of ids a full scan of the token records yields; when it is at most 1000, one maximal all-tokens page lists that many ids |
| Dispatch.Handle | packages/cw721/src/msg.rs:139-238 | answers each query-message variant with the query of the same name, with `include_expired` read as `unwrap_or(false)`; its own contract says a success is the response variant of the message's variant, AllOperators, NumTokens, Tokens, AllTokens and GetWithdrawAddress never fail, and OwnerOf, Approvals, NftInfo and AllNftInfo fail exactly when the token is not stored; the `...Routed` lemmas below equate the answer to OwnerOf, Approval, AllOperators, Tokens and AllTokens with the query's own result, so every property proved of those queries holds of the message answer; the other variants have their answers stated outright by the lemmas below |
| Dispatch.IncludeExpired | packages/cw721/src/msg.rs:143 | only an explicit true shows expired entries; unset and false hide them |
| Dispatch.OwnerOfReturnsOwner | packages/cw721/src/msg.rs:139-145 | the OwnerOf message fails iff the token does not exist, and otherwise names the token's owner |
| Dispatch.OwnerOfRouted | packages/cw721/src/msg.rs:139-145 | the OwnerOf answer is exactly the owner-of query's result, with `include_expired` read as `unwrap_or(false)` |
| Dispatch.OwnerOfAnswersFilteredApprovals | packages/cw721/src/msg.rs:139-145 | for a stored token, the OwnerOf answer lists an order-preserving subsequence of the stored approvals that holds an approval iff it is stored and (`include_expired` is `Some(true)` or it has not expired), each listed one at its stored multiplicity; with `Some(true)` it is the stored list itself |
| Dispatch.AllOperatorsMessageRouted | packages/cw721/src/msg.rs:166-174 | any AllOperators message is answered by the operators query on the message's own fields |
| Dispatch.AllOperatorsRouted | packages/cw721/src/msg.rs:166-174 | the AllOperators answer is exactly the operators query's result, with `include_expired` read as `unwrap_or(false)`; with `QueryProperties.OperatorsPageIsComplete` this makes every listable grant after `start_after` either listed or past the end of a full page |
| Dispatch.ShownUnderFlag | packages/cw721/src/msg.rs:170 | with `include_expired` read as `unwrap_or(false)`, an entry passes the expiry filter iff the flag is `Some(true)` or the entry has not expired |
| Dispatch.AllOperatorsAnswersPage | packages/cw721/src/msg.rs:166-174 | the AllOperators message never fails and answers at most the effective limit of the owner's grants, strictly ascending by operator, each after `start_after`, with its stored expiration, and unexpired unless `include_expired` is `Some(true)` |
| Dispatch.OperatorFailsWhenNotSet | packages/cw721/src/msg.rs:159-165 | the Operator message fails with "Approval not found" when no grant is set; it fails exactly when the grant is missing, or is expired and `include_expired` is not true; a success returns the stored grant with spender = operator |
| Dispatch.TokensEmptyWhenOwnerHasNone | packages/cw721/src/msg.rs:221-228 | the Tokens message answers `[]` for an owner without tokens |
| Dispatch.AllNftInfoIsOwnerOfAndNftInfo | packages/cw721/src/msg.rs:211-219 | the AllNftInfo message fails exactly when OwnerOf and NftInfo fail, and otherwise answers the pair of their answers |
| Dispatch.NumTokensAnswersCounter | packages/cw721/src/msg.rs:175-177 | the NumTokens message answers the stored token counter |
| Dispatch.WithdrawAddressAnswersStored | packages/cw721/src/msg.rs:238 | the GetWithdrawAddress message answers the stored withdraw address |
| Dispatch.NftInfoAnswersTokenData | packages/cw721/src/msg.rs:206-210 | the NftInfo message fails with NotFound for a missing token and otherwise answers its token URI and extension |
| Dispatch.ApprovalsAnswersFilteredApprovals | packages/cw721/src/msg.rs:153-157 | the Approvals message fails with NotFound for a missing token and otherwise answers an order-preserving subsequence of the stored approvals holding every one that is unexpired (or all, with `include_expired` true) at its stored multiplicity, and nothing else |
| Dispatch.ApprovalRouted | packages/cw721/src/msg.rs:146-152 | the Approval answer is exactly the approval query's result, with `include_expired` read as `unwrap_or(false)` |
| Dispatch.ApprovalAnswersSpender | packages/cw721/src/msg.rs:146-152 | the Approval message fails with NotFound for a missing token; the owner gets a never-expiring approval; otherwise it succeeds iff a stored approval of the spender passes the expiry filter, fails with "Approval not found" when none does, always names the requested spender, and answers the first stored approval of the spender that passes the filter, with that approval's stored expiration |
| Dispatch.AllTokensMessageRouted | packages/cw721/src/msg.rs:229-235 | any AllTokens message is answered by the all-tokens query on the message's own fields |
| Dispatch.AllTokensRouted | packages/cw721/src/msg.rs:229-235 | the AllTokens answer is exactly the all-tokens query's result |
| Dispatch.AllTokensAnswersPage | packages/cw721/src/msg.rs:229-235 | the AllTokens message answers at most the effective limit of stored ids, strictly ascending, all after `start_after` |
| Dispatch.TokensMessageRouted | packages/cw721/src/msg.rs:221-228 | any Tokens message is answered by the tokens query on the message's own fields |
| Dispatch.TokensRouted | packages/cw721/src/msg.rs:221-228 | the Tokens answer is exactly the tokens query's result |
| Dispatch.TokensAnswersPage | packages/cw721/src/msg.rs:221-228 | the Tokens message answers at most the effective limit of ids indexed under the owner, strictly ascending, all after `start_after` |
| Royalties.DecimalPercent | contracts/cw2981-royalties/src/query.rs:20-23 | the atomics of the decimal `x` percent are x/100 times 10^18 |
| Royalties.MulDecimal | contracts/cw2981-royalties/src/query.rs:25 | the product is the floor of `a * atomics / 10^18`; it fails iff that floor does not fit in 128 bits |
| Royalties.Percentage | contracts/cw2981-royalties/src/query.rs:18-24 | the stored percentage, or 0 when there is no metadata or no percentage |
| Royalties.PaymentAddress | contracts/cw2981-royalties/src/query.rs:27-30 | the stored payment address, or `""` when there is no metadata or no address |
| Royalties.QueryRoyaltiesInfo | contracts/cw2981-royalties/src/query.rs:9-36 | fails with the token-information error for a missing token; otherwise succeeds iff floor(sale price × percentage / 100) fits in 128 bits, with the defaulted payment address |
| Royalties.CheckRoyalties | contracts/cw2981-royalties/src/query.rs:43-47 | always succeeds with `royalty_payments = true` |
| Royalties.DivCancel | contracts/cw2981-royalties/src/query.rs:25 | scaling numerator and denominator by the same factor leaves the floor quotient unchanged |
| Royalties.PercentIsFloorOfHundredth | contracts/cw2981-royalties/src/query.rs:20-25 | multiplying by `Decimal::percent(p)` is floor(a × p / 100) |
| Royalties.RoyaltyRoundsDown | contracts/cw2981-royalties/src/query.rs:7-8 | the royalty equals floor(sale price × percentage / 100): 100 × amount ≤ sale price × percentage < 100 × (amount + 1) |
| Royalties.RoyaltyAtMostSalePrice | contracts/cw2981-royalties/src/query.rs:25 | a percentage of at most 100 never overflows and never owes more than the sale price |
| Royalties.NoMetadataMeansNoRoyalty | contracts/cw2981-royalties/src/query.rs:18-30 | a token without metadata owes 0 to `""` |
| Royalties.NoPercentageMeansNoRoyalty | contracts/cw2981-royalties/src/query.rs:19-25 | metadata without a percentage owes 0 |
| Royalties.MissingTokenFailsLikeNftInfo | contracts/cw2981-royalties/src/query.rs:16 | a missing token fails with the token-information query's error |
| Expiry.ExpiredStaysExpired | packages/cw721/src/query.rs:41 | an expiration that has passed stays passed in every later block |

## Notes on the code

- `limit.unwrap_or(DEFAULT_LIMIT).min(MAX_LIMIT)` never raises the limit, so
  `Some(0)` gives an empty page (packages/cw721/src/query.rs:190, 283, 306);
  see `QueryProperties.ZeroLimitGivesEmptyPages`.
- The doc comment of the `Approval` query variant (packages/cw721/src/msg.rs:146)
  speaks of an operator over all of the owner's tokens. The query it routes to
  (packages/cw721/src/query.rs:211-250) looks up a token-level approval. The
  model follows the code.

## Left out

- Minter and creator ownership, and the collection-metadata queries (packages/cw721/src/query.rs:54-106): these load from storage through libraries whose code is not part of this model.
- Address validation (`addr_validate`, `maybe_addr`) is treated as the identity on valid addresses. Its failure on a malformed address is not modelled.
- Storage-level read errors are not modelled, including those the operators filter passes through (packages/cw721/src/query.rs:202). Storage reads always succeed in the model.
- The `cw_storage_plus` range and prefix machinery is modelled by its result. That result is the ascending byte-order scan of the keys strictly after the bound, over `string` keys, which stand for their UTF-8 bytes. The key encoding is not modelled.
- The owner secondary index is a field of the snapshot. Lemmas that need it to match the token records take `State.IndexConsistent` as a precondition, because the code that maintains the index (mint, transfer, burn) is not part of this model. The same holds for the token counter and `State.CountConsistent`.
- Mutation (mint, transfer, send, approve, revoke, burn, metadata update, withdraw) is not part of this model.
- JSON serialisation of messages and responses is not modelled. The query dispatch code is not part of this model either; `Dispatch.Handle` routes each `Cw721QueryMsg` variant to the query of the same name in packages/cw721/src/query.rs.
- The query variants that return ownership, collection metadata, or the no-op extension answers are not in `Msg.QueryMsg`.
- `Expiration` is an assumed definition of the `cw_utils` type. `AtTime` holds a nanosecond count (u64) rather than a `Timestamp`.
- The royalties contract's metadata has more fields than the two the royalty query reads. Only those two are in `Royalties.Metadata`.
- Dispatch.AllOperatorsAnswersPage: states what every listed grant satisfies, not that no listable grant is skipped. Completeness is proved of the query by `QueryProperties.OperatorsPageIsComplete` and carried to the message by `Dispatch.AllOperatorsRouted`, because restating it through `Dispatch.Handle` is beyond the verifier's resource budget.
- Royalties.QueryRoyaltiesInfo: a product that does not fit in 128 bits aborts the contract in the code. The model reports this abort as an `Overflow` error instead of taking a precondition. `Royalties.RoyaltyAtMostSalePrice` proves the abort cannot happen for percentages up to 100.
