/** The query messages and their response types. */
module Msg {
  import opened Wrappers
  import opened CosmStd
  import State

  datatype OwnerOfResponse = OwnerOfResponse(owner: string, approvals: seq<State.Approval>)
  datatype ApprovalResponse = ApprovalResponse(approval: State.Approval)
  datatype ApprovalsResponse = ApprovalsResponse(approvals: seq<State.Approval>)
  datatype OperatorResponse = OperatorResponse(approval: State.Approval)
  datatype OperatorsResponse = OperatorsResponse(operators: seq<State.Approval>)
  datatype NumTokensResponse = NumTokensResponse(count: u64)
  datatype NftInfoResponse<E> = NftInfoResponse(tokenUri: Option<string>, extension: E)
  /** The owner-of answer and the token data for one token. */
  datatype AllNftInfoResponse<E> = AllNftInfoResponse(access: OwnerOfResponse, info: NftInfoResponse<E>)
  /** Token ids in ascending order; a full page is continued by passing its
      last id as `startAfter`. */
  datatype TokensResponse = TokensResponse(tokens: seq<string>)

  /** The token and operator queries.  An unset `includeExpired` means false. */
  datatype QueryMsg =
    | OwnerOf(tokenId: string, includeExpired: Option<bool>)
    | Approval(tokenId: string, spender: string, includeExpired: Option<bool>)
    | Approvals(tokenId: string, includeExpired: Option<bool>)
    | Operator(owner: string, operator: string, includeExpired: Option<bool>)
    | AllOperators(owner: string, includeExpired: Option<bool>, startAfter: Option<string>, limit: Option<u32>)
    | NumTokens
    | NftInfo(tokenId: string)
    | AllNftInfo(tokenId: string, includeExpired: Option<bool>)
    | Tokens(owner: string, startAfter: Option<string>, limit: Option<u32>)
    | AllTokens(startAfter: Option<string>, limit: Option<u32>)
    | GetWithdrawAddress

  /** The response each query message returns. */
  datatype QueryResponse<E> =
    | OwnerOfResult(ownerOf: OwnerOfResponse)
    | ApprovalResult(approval: ApprovalResponse)
    | ApprovalsResult(approvals: ApprovalsResponse)
    | OperatorResult(operator: OperatorResponse)
    | OperatorsResult(operators: OperatorsResponse)
    | NumTokensResult(numTokens: NumTokensResponse)
    | NftInfoResult(nftInfo: NftInfoResponse<E>)
    | AllNftInfoResult(allNftInfo: AllNftInfoResponse<E>)
    | TokensResult(tokens: TokensResponse)
    | WithdrawAddressResult(address: Option<string>)
}
