/** The persisted entities. The entity classes themselves are not part of this
    model; their fields are the ones the mappers and repositories read and write. */
module Models {
  import opened Numerics

  /** `DateTime`, as a tick count. */
  type DateTime = int

  /** A comment on a stock. `stockId` is the foreign key to its stock. */
  datatype Comment = Comment(
    id: Int32,
    title: string,
    content: string,
    createdOn: DateTime,
    stockId: Int32)

  /** A stock. `purchase` and `lastDiv` are C# `decimal`s. `comments` is the
      navigation collection the ORM fills in. */
  datatype Stock = Stock(
    id: Int32,
    symbol: string,
    companyName: string,
    purchase: real,
    lastDiv: real,
    industry: string,
    marketCap: Int64,
    comments: seq<Comment>)

  /** Key selectors, passed to the generic table operations. */
  function StockId(s: Stock): Int32 { s.id }
  function CommentId(c: Comment): Int32 { c.id }
}
