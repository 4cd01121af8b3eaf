/** The royalties extension of the registry: a token's metadata may carry a
    royalty percentage and a payment address, and the royalties query turns a
    sale price into the amount owed, rounding down. */
module Royalties {
  import opened Wrappers
  import opened CosmStd
  import opened State
  import opened Query

  /** The fields of a token's metadata the royalties query reads. */
  datatype Metadata = Metadata(royaltyPercentage: Option<u64>, royaltyPaymentAddress: Option<string>)

  /** The extension stored with each token of the royalties registry. */
  type Extension = Option<Metadata>

  datatype RoyaltiesInfoResponse = RoyaltiesInfoResponse(address: string, royaltyAmount: u128)

  datatype CheckRoyaltiesResponse = CheckRoyaltiesResponse(royaltyPayments: bool)

  const U128_LIMIT: nat := 0x1_0000_0000_0000_0000_0000_0000_0000_0000

  /** A fixed-point decimal is stored as its value times 10^18 ("atomics"). */
  const DECIMAL_FRACTIONAL: nat := 1_000_000_000_000_000_000

  /** `Decimal::percent(x)`: the decimal x/100, as atomics. */
  function DecimalPercent(x: u64): (atomics: nat)
    ensures atomics * 100 == x * DECIMAL_FRACTIONAL
  {
    x * 10_000_000_000_000_000
  }

  /** `Uint128 * Decimal`: zero when either side is zero, otherwise
      floor(a * atomics / 10^18); a product that does not fit in 128 bits
      aborts, which is reported here as `Overflow`. */
  function MulDecimal(a: u128, atomics: nat): (r: StdResult<u128>)
    ensures r.Ok? ==> r.value * DECIMAL_FRACTIONAL <= a * atomics < (r.value + 1) * DECIMAL_FRACTIONAL
    ensures r.Err? <==> a * atomics / DECIMAL_FRACTIONAL >= U128_LIMIT
  {
    if a == 0 || atomics == 0 then Ok(0)
    else
      var q := a * atomics / DECIMAL_FRACTIONAL;
      if q < U128_LIMIT then Ok(q) else Err(Overflow("Multiplication overflow"))
  }

  /** The percentage a token's extension asks for; missing means 0. */
  function Percentage(ext: Extension): (p: u64)
    ensures ext.None? || ext.value.royaltyPercentage.None? ==> p == 0
    ensures ext.Some? && ext.value.royaltyPercentage.Some? ==> p == ext.value.royaltyPercentage.value
  {
    match ext
    case Some(m) => m.royaltyPercentage.UnwrapOr(0)
    case None => 0
  }

  /** The address a token's extension names; missing means the empty string. */
  function PaymentAddress(ext: Extension): (a: string)
    ensures ext.None? || ext.value.royaltyPaymentAddress.None? ==> a == ""
    ensures ext.Some? && ext.value.royaltyPaymentAddress.Some? ==> a == ext.value.royaltyPaymentAddress.value
  {
    match ext
    case Some(m) => m.royaltyPaymentAddress.UnwrapOr("")
    case None => ""
  }

  /** The royalty owed on a sale of `tokenId` at `salePrice`. */
  function QueryRoyaltiesInfo(s: Storage<Extension>, tokenId: string, salePrice: u128)
    : (r: StdResult<RoyaltiesInfoResponse>)
    ensures tokenId !in s.nftInfo ==> r == Err(TOKEN_NOT_FOUND)
    ensures tokenId in s.nftInfo ==>
      var ext := s.nftInfo[tokenId].extension;
      && (r.Ok? ==> r.value.address == PaymentAddress(ext))
      && (r.Ok? <==> salePrice * Percentage(ext) / 100 < U128_LIMIT)
  {
    var info := QueryNftInfo(s, tokenId);
    if info.Err? then Err(info.error)
    else
      var amount := MulDecimal(salePrice, DecimalPercent(Percentage(info.value.extension)));
      if amount.Err? then Err(amount.error)
      else Ok(RoyaltiesInfoResponse(PaymentAddress(info.value.extension), amount.value))
  }

  /** Royalties are decided per token, so every sale must be checked. */
  function CheckRoyalties(): (r: StdResult<CheckRoyaltiesResponse>)
    ensures r.Ok? && r.value.royaltyPayments
  {
    Ok(CheckRoyaltiesResponse(true))
  }

  /** Integer division is unique: a quotient/remainder pair fixes n / m. */
  lemma {:induction false} DivUnique(n: int, m: int, q: int, rem: int)
    requires m > 0 && 0 <= rem < m && n == q * m + rem
    ensures n / m == q
  {
    var k := q - n / m;
    assert k * m == n % m - rem;
  }

  /** Scaling numerator and denominator by the same factor keeps the floor. */
  lemma {:induction false} DivCancel(x: nat, c: nat, d: nat)
    requires c > 0 && d > 0
    ensures (x * c) / (d * c) == x / d
  {
    var q := x / d;
    var rem := x % d;
    assert x == q * d + rem;
    assert x * c == q * (d * c) + rem * c;
    assert rem * c < d * c;
    DivUnique(x * c, d * c, q, rem * c);
  }

  /** Multiplying by `Decimal::percent(p)` is floor(a * p / 100). */
  lemma {:induction false} PercentIsFloorOfHundredth(a: u128, p: u64)
    ensures a * DecimalPercent(p) / DECIMAL_FRACTIONAL == a * p / 100
  {
    assert a * DecimalPercent(p) == (a * p) * 10_000_000_000_000_000;
    assert DECIMAL_FRACTIONAL == 100 * 10_000_000_000_000_000;
    DivCancel(a * p, 10_000_000_000_000_000, 100);
  }

  /** The royalty is the sale price times the percentage over 100, rounded
      down: it lies within one unit below the exact share. */
  lemma RoyaltyRoundsDown(s: Storage<Extension>, tokenId: string, salePrice: u128)
    requires QueryRoyaltiesInfo(s, tokenId, salePrice).Ok?
    ensures var amount := QueryRoyaltiesInfo(s, tokenId, salePrice).value.royaltyAmount;
      var p := Percentage(s.nftInfo[tokenId].extension);
      && amount == salePrice * p / 100
      && amount * 100 <= salePrice * p < (amount + 1) * 100
  {
    var p := Percentage(s.nftInfo[tokenId].extension);
    PercentIsFloorOfHundredth(salePrice, p);
  }

  /** A percentage of at most 100 never overflows and never owes more than
      the sale price. */
  lemma RoyaltyAtMostSalePrice(s: Storage<Extension>, tokenId: string, salePrice: u128)
    requires tokenId in s.nftInfo
    requires Percentage(s.nftInfo[tokenId].extension) <= 100
    ensures QueryRoyaltiesInfo(s, tokenId, salePrice).Ok?
    ensures QueryRoyaltiesInfo(s, tokenId, salePrice).value.royaltyAmount <= salePrice
  {
    var p := Percentage(s.nftInfo[tokenId].extension);
    assert salePrice * p <= salePrice * 100;
    RoyaltyRoundsDown(s, tokenId, salePrice);
  }

  /** A token without metadata owes nothing, to the empty address. */
  lemma NoMetadataMeansNoRoyalty(s: Storage<Extension>, tokenId: string, salePrice: u128)
    requires tokenId in s.nftInfo && s.nftInfo[tokenId].extension.None?
    ensures QueryRoyaltiesInfo(s, tokenId, salePrice) == Ok(RoyaltiesInfoResponse("", 0))
  {
  }

  /** Metadata without a percentage owes nothing. */
  lemma NoPercentageMeansNoRoyalty(s: Storage<Extension>, tokenId: string, salePrice: u128)
    requires tokenId in s.nftInfo && s.nftInfo[tokenId].extension.Some?
    requires s.nftInfo[tokenId].extension.value.royaltyPercentage.None?
    ensures QueryRoyaltiesInfo(s, tokenId, salePrice).Ok?
    ensures QueryRoyaltiesInfo(s, tokenId, salePrice).value.royaltyAmount == 0
  {
  }

  /** The royalties query fails exactly as the token-information query does
      when the token does not exist. */
  lemma MissingTokenFailsLikeNftInfo(s: Storage<Extension>, tokenId: string, salePrice: u128)
    requires tokenId !in s.nftInfo
    ensures QueryRoyaltiesInfo(s, tokenId, salePrice) == Err(QueryNftInfo(s, tokenId).error)
  {
  }
}
