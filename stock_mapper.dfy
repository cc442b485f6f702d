/** Translations between the stock entity and its DTOs. */
module StockMapper {
  import opened Numerics
  import opened Models
  import opened StockDtos
  import opened CommentDtos
  import opened CommentMapper

  /** The six data fields every stock shape carries, without id and comments. */
  datatype StockData = StockData(
    symbol: string,
    companyName: string,
    purchase: real,
    lastDiv: real,
    industry: string,
    marketCap: Int64)

  function DataOfStock(s: Stock): StockData {
    StockData(s.symbol, s.companyName, s.purchase, s.lastDiv, s.industry, s.marketCap)
  }

  function DataOfDto(d: StockDto): StockData {
    StockData(d.symbol, d.companyName, d.purchase, d.lastDiv, d.industry, d.marketCap)
  }

  function DataOfCreate(d: CreateStockRequestDto): StockData {
    StockData(d.symbol, d.companyName, d.purchase, d.lastDiv, d.industry, d.marketCap)
  }

  function DataOfUpdate(d: UpdateStockRequestDto): StockData {
    StockData(d.symbol, d.companyName, d.purchase, d.lastDiv, d.industry, d.marketCap)
  }

  /** `Comments.Select(ToCommentDto)`: one DTO per comment, in order. */
  function ProjectComments(cs: seq<Comment>): (ds: seq<CommentDto>)
    ensures |ds| == |cs|
    ensures forall i :: 0 <= i < |cs| ==> ds[i] == ToCommentDto(cs[i])
  {
    seq(|cs|, i requires 0 <= i < |cs| => ToCommentDto(cs[i]))
  }

  /** The response shape of a stock: id and data fields unchanged, comments
      projected one by one in order. */
  function ToStockDto(s: Stock): (d: StockDto)
    ensures d.id == s.id && DataOfDto(d) == DataOfStock(s)
    ensures |d.comments| == |s.comments|
    ensures forall i :: 0 <= i < |s.comments| ==> d.comments[i] == ToCommentDto(s.comments[i])
  {
    StockDto(s.id, s.symbol, s.companyName, s.purchase, s.lastDiv, s.industry, s.marketCap,
             ProjectComments(s.comments))
  }

  /** A new stock entity from a create request: the six fields are copied, the
      id keeps its default 0 and there are no comments yet. */
  function ToStock(d: CreateStockRequestDto): (s: Stock)
    ensures DataOfStock(s) == DataOfCreate(d)
    ensures s.id == 0 && s.comments == []
  {
    Stock(0, d.symbol, d.companyName, d.purchase, d.lastDiv, d.industry, d.marketCap, [])
  }

  /** The in-place update: exactly the six data fields are overwritten, the id
      and the comments are kept. */
  function MapStockDtoToStockModel(src: UpdateStockRequestDto, dest: Stock): (s: Stock)
    ensures DataOfStock(s) == DataOfUpdate(src)
    ensures s.id == dest.id && s.comments == dest.comments
  {
    dest.(symbol := src.symbol, companyName := src.companyName, purchase := src.purchase,
          lastDiv := src.lastDiv, industry := src.industry, marketCap := src.marketCap)
  }

  /** Creating a stock and reading it back as a DTO returns the request's six
      fields, whatever id the table then assigns. */
  lemma {:induction false} CreateStockRoundTrip(d: CreateStockRequestDto, id: Int32)
    ensures DataOfDto(ToStockDto(ToStock(d).(id := id))) == DataOfCreate(d)
    ensures ToStockDto(ToStock(d).(id := id)).id == id
    ensures ToStockDto(ToStock(d).(id := id)).comments == []
  {
  }

  /** Applying the same update twice is the same as applying it once, and a
      later update wins over an earlier one. */
  lemma {:induction false} MapStockDtoToStockModelIdempotent(a: UpdateStockRequestDto, b: UpdateStockRequestDto, s: Stock)
    ensures MapStockDtoToStockModel(a, MapStockDtoToStockModel(a, s)) == MapStockDtoToStockModel(a, s)
    ensures MapStockDtoToStockModel(a, MapStockDtoToStockModel(b, s)) == MapStockDtoToStockModel(a, s)
  {
  }
}
