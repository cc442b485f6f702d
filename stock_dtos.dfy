/** The stock DTOs: the response shape and the two request bodies, with the
    validation attributes of the create request. */
module StockDtos {
  import opened Numerics
  import opened Text
  import opened Validation
  import opened CommentDtos

  datatype StockDto = StockDto(
    id: Int32,
    symbol: string,
    companyName: string,
    purchase: real,
    lastDiv: real,
    industry: string,
    marketCap: Int64,
    comments: seq<CommentDto>)

  datatype CreateStockRequestDto = CreateStockRequestDto(
    symbol: string,
    companyName: string,
    purchase: real,
    lastDiv: real,
    industry: string,
    marketCap: Int64)

  /** The update request carries the same six fields. */
  datatype UpdateStockRequestDto = UpdateStockRequestDto(
    symbol: string,
    companyName: string,
    purchase: real,
    lastDiv: real,
    industry: string,
    marketCap: Int64)

  /** A newly constructed request: empty strings and zeros. */
  const DefaultCreateStockRequest := CreateStockRequestDto("", "", 0.0, 0.0, "", 0)

  /** All validation attributes of `CreateStockRequestDto` hold. `Purchase`
      and `MarketCap` carry the `int` form of `[Range]`, which rounds the
      `decimal` half to even before comparing; `LastDiv` carries the `double` form. */
  predicate ValidCreateStockRequest(d: CreateStockRequestDto) {
    && Required(d.symbol) && MaxLength(d.symbol, 10)
    && Required(d.companyName) && MaxLength(d.companyName, 10)
    && RangeInt32(RoundHalfToEven(d.purchase), 1, 1000000000) == InBounds
    && InRange(d.lastDiv, 0.001, 100.0)
    && Required(d.industry) && MaxLength(d.industry, 10)
    && RangeInt32(d.marketCap, 1, 1000000000) == InBounds
  }

  /** Validating the request throws instead of answering: a `Purchase` or a
      `MarketCap` that does not convert to an `int`. */
  predicate CreateStockRequestValidationThrows(d: CreateStockRequestDto) {
    || RangeInt32(RoundHalfToEven(d.purchase), 1, 1000000000) == ConversionOverflow
    || RangeInt32(d.marketCap, 1, 1000000000) == ConversionOverflow
  }

  /** What a valid create request guarantees of each field. */
  lemma {:induction false} ValidCreateStockRequestBounds(d: CreateStockRequestDto)
    requires ValidCreateStockRequest(d)
    ensures 1 <= |d.symbol| <= 10 && !IsBlank(d.symbol)
    ensures 1 <= |d.companyName| <= 10 && !IsBlank(d.companyName)
    ensures 1 <= |d.industry| <= 10 && !IsBlank(d.industry)
    ensures 0.5 < d.purchase <= 1000000000.5
    ensures 0.001 <= d.lastDiv <= 100.0 && d.lastDiv != 0.0
    ensures 1 <= d.marketCap <= 1000000000
    ensures !CreateStockRequestValidationThrows(d)
  {
    DecimalRangeToOneBillion(d.purchase);
  }

  /** A field over ten characters, a blank field, a zero dividend, a purchase
      price that rounds below one or a market capitalisation below one each
      make the request invalid; the default request is invalid. */
  lemma {:induction false} InvalidCreateStockRequests(d: CreateStockRequestDto)
    ensures |d.symbol| > 10 || |d.companyName| > 10 || |d.industry| > 10 ==> !ValidCreateStockRequest(d)
    ensures IsBlank(d.symbol) || IsBlank(d.companyName) || IsBlank(d.industry) ==> !ValidCreateStockRequest(d)
    ensures d.lastDiv == 0.0 || d.purchase <= 0.5 || d.marketCap < 1 ==> !ValidCreateStockRequest(d)
    ensures CreateStockRequestValidationThrows(d) ==> !ValidCreateStockRequest(d)
    ensures !ValidCreateStockRequest(DefaultCreateStockRequest)
  {
    DecimalRangeToOneBillion(d.purchase);
  }

  /** The rounding at the edges of the `Purchase` range, and the overflow of a
      `MarketCap` past `int`. */
  lemma {:induction false} CreateStockRequestRangeEdges()
    ensures ValidCreateStockRequest(CreateStockRequestDto("MSFT", "Microsoft", 0.6, 1.0, "Technology", 1))
    ensures !ValidCreateStockRequest(CreateStockRequestDto("MSFT", "Microsoft", 0.5, 1.0, "Technology", 1))
    ensures ValidCreateStockRequest(CreateStockRequestDto("MSFT", "Microsoft", 1000000000.5, 1.0, "Technology", 1))
    ensures CreateStockRequestValidationThrows(CreateStockRequestDto("MSFT", "Microsoft", 1.0, 1.0, "Technology", 3000000000))
  {
    DecimalRangeToOneBillion(0.6);
    DecimalRangeToOneBillion(0.5);
    DecimalRangeToOneBillion(1000000000.5);
    assert !IsBlank("MSFT") by { assert !IsWhiteSpace("MSFT"[0]); }
    assert !IsBlank("Microsoft") by { assert !IsWhiteSpace("Microsoft"[0]); }
    assert !IsBlank("Technology") by { assert !IsWhiteSpace("Technology"[0]); }
  }
}
