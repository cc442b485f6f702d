/** The database-backed repositories. Each table is the sequence of its rows in
    stored order; the id of a new row is the one the database generates, passed
    in as `generatedId`. */
module Repository {
  import opened Wrappers
  import opened Numerics
  import opened Models
  import opened Tables
  import opened Helpers
  import opened StockDtos
  import opened CommentDtos
  import opened StockMapper
  import opened CommentMapper
  import opened StockQuery

  /** A stock as `FirstOrDefaultAsync` without `Include(x => x.Comments)` loads
      it into the fresh per-request context: the row's fields, no comments. */
  function WithoutComments(s: Stock): (r: Stock)
    ensures r.id == s.id && DataOfStock(r) == DataOfStock(s)
    ensures r.comments == []
  {
    s.(comments := [])
  }

  class StockRepository {
    var stocks: seq<Stock>

    ghost predicate Valid()
      reads this
    {
      UniqueIds(stocks, StockId)
    }

    /** The table as the database holds it; its primary key keeps ids unique. */
    constructor(rows: seq<Stock>)
      requires UniqueIds(rows, StockId)
      ensures stocks == rows
      ensures Valid()
    {
      stocks := rows;
    }

    /** `FirstOrDefaultAsync(x => x.Id == id)`. */
    function GetByIdAsync(id: Int32): (r: Option<Stock>)
      reads this
      ensures r.None? <==> forall x :: x in stocks ==> x.id != id
      ensures r.Some? ==> r.value in stocks && r.value.id == id
      ensures r.Some? ==> IsFirstWithId(stocks, StockId, id, r.value)
    {
      FirstWithId(stocks, StockId, id)
    }

    /** `AnyAsync(x => x.Id == id)`. */
    function StockExists(id: Int32): (r: bool)
      reads this
      ensures r <==> exists x :: x in stocks && x.id == id
      ensures r <==> GetByIdAsync(id).Some?
    {
      AnyWithIdMeaning(stocks, StockId, id);
      AnyWithId(stocks, StockId, id)
    }

    /** The filter, sort and page pipeline over the stored rows; it throws
        where the database refuses the paging clause. */
    function GetAllAsync(query: QueryObject): (r: Result<seq<Stock>, DatabaseError>)
      reads this
      ensures r.Failure? <==> !PagingAccepted(query)
      ensures r.Success? ==> forall x :: x in r.value ==> x in stocks && RepositoryMatches(query, x)
      ensures r.Success? ==> 1 <= query.pageSize && |r.value| <= query.pageSize
      ensures query.pageNumber == 1 && query.pageSize >= 1 && query.pageSize >= |stocks| ==>
        r.Success? && forall x :: x in r.value <==> x in stocks && RepositoryMatches(query, x)
    {
      RepositoryGetAllSpec(stocks, query);
      RepositoryGetAll(stocks, query)
    }

    /** Adds the stock; the database numbers it `generatedId`. */
    method CreateAsync(stockModel: Stock, generatedId: Int32) returns (r: Stock)
      modifies this
      ensures r == stockModel.(id := generatedId)
      ensures stocks == old(stocks) + [r]
      ensures old(Valid()) && !old(StockExists(generatedId)) ==> Valid() && GetByIdAsync(generatedId) == Some(r)
    {
      r := stockModel.(id := generatedId);
      if Valid() && !StockExists(generatedId) {
        FreshIdAppended(stocks, StockId, r);
      }
      stocks := stocks + [r];
    }

    /** Removes the first stock with id `id` and returns it as loaded without
        its comments, or returns null. */
    method DeleteAsync(id: Int32) returns (r: Option<Stock>)
      modifies this
      ensures r.None? <==> old(GetByIdAsync(id)).None?
      ensures r.Some? ==> r.value == WithoutComments(old(GetByIdAsync(id)).value)
      ensures r.None? ==> stocks == old(stocks)
      ensures r.Some? ==> stocks == RemoveAt(old(stocks), IndexOfId(old(stocks), StockId, id).value)
      ensures |stocks| == |old(stocks)| - (if r.Some? then 1 else 0)
      ensures old(Valid()) ==> Valid() && GetByIdAsync(id).None?
    {
      match IndexOfId(stocks, StockId, id)
      case None =>
        r := None;
      case Some(i) =>
        r := Some(WithoutComments(stocks[i]));
        if Valid() {
          RemovedIdIsGone(stocks, StockId, id);
        }
        stocks := RemoveAt(stocks, i);
    }

    /** Applies `MapStockDtoToStockModel` to the first stock with id `id` and
        returns it as loaded without its comments, or returns null; the stored
        row keeps its comments. */
    method UpdateAsync(id: Int32, stockDto: UpdateStockRequestDto) returns (r: Option<Stock>)
      modifies this
      ensures IndexOfId(old(stocks), StockId, id).None? ==> r.None? && stocks == old(stocks)
      ensures IndexOfId(old(stocks), StockId, id).Some? ==>
        var i := IndexOfId(old(stocks), StockId, id).value;
        && stocks == old(stocks)[i := MapStockDtoToStockModel(stockDto, old(stocks)[i])]
        && r == Some(WithoutComments(stocks[i]))
        && GetByIdAsync(id) == Some(stocks[i])
      ensures old(Valid()) ==> Valid()
    {
      match IndexOfId(stocks, StockId, id)
      case None =>
        r := None;
      case Some(i) =>
        var updated := MapStockDtoToStockModel(stockDto, stocks[i]);
        ReplaceKeepsIds(stocks, StockId, i, updated);
        stocks := stocks[i := updated];
        r := Some(WithoutComments(updated));
    }
  }

  class CommentRepository {
    var comments: seq<Comment>

    ghost predicate Valid()
      reads this
    {
      UniqueIds(comments, CommentId)
    }

    /** The table as the database holds it; its primary key keeps ids unique. */
    constructor(rows: seq<Comment>)
      requires UniqueIds(rows, CommentId)
      ensures comments == rows
      ensures Valid()
    {
      comments := rows;
    }

    /** `ToListAsync()`: every stored comment, in stored order. */
    function GetAllAsync(): (r: seq<Comment>)
      reads this
      ensures |r| == |comments|
      ensures forall i :: 0 <= i < |r| ==> r[i] == comments[i]
    {
      comments[..]
    }

    /** `FirstOrDefaultAsync(x => x.Id == id)`. */
    function GetByIdAsync(id: Int32): (r: Option<Comment>)
      reads this
      ensures r.None? <==> forall x :: x in comments ==> x.id != id
      ensures r.Some? ==> r.value in comments && r.value.id == id
      ensures r.Some? ==> IsFirstWithId(comments, CommentId, id, r.value)
    {
      FirstWithId(comments, CommentId, id)
    }

    /** Adds the comment; the database numbers it `generatedId`. */
    method CreateAsync(commentModel: Comment, generatedId: Int32) returns (r: Comment)
      modifies this
      ensures r == commentModel.(id := generatedId)
      ensures comments == old(comments) + [r]
      ensures old(Valid()) && old(GetByIdAsync(generatedId)).None? ==> Valid() && GetByIdAsync(generatedId) == Some(r)
    {
      r := commentModel.(id := generatedId);
      if Valid() && GetByIdAsync(generatedId).None? {
        FreshIdAppended(comments, CommentId, r);
      }
      comments := comments + [r];
    }

    /** Removes the first comment with id `id` and returns it, or returns null. */
    method DeleteAsync(id: Int32) returns (r: Option<Comment>)
      modifies this
      ensures r == old(GetByIdAsync(id))
      ensures r.None? ==> comments == old(comments)
      ensures r.Some? ==> comments == RemoveAt(old(comments), IndexOfId(old(comments), CommentId, id).value)
      ensures |comments| == |old(comments)| - (if r.Some? then 1 else 0)
      ensures old(Valid()) ==> Valid() && GetByIdAsync(id).None?
    {
      match IndexOfId(comments, CommentId, id)
      case None =>
        r := None;
      case Some(i) =>
        r := Some(comments[i]);
        if Valid() {
          RemovedIdIsGone(comments, CommentId, id);
        }
        comments := RemoveAt(comments, i);
    }

    /** Applies `MapCommentDtoToComment` to the first comment with id `id` and
        returns it, or returns null. */
    method UpdateAsync(id: Int32, commentDto: UpdateCommentRequestDto) returns (r: Option<Comment>)
      modifies this
      ensures IndexOfId(old(comments), CommentId, id).None? ==> r.None? && comments == old(comments)
      ensures IndexOfId(old(comments), CommentId, id).Some? ==>
        var i := IndexOfId(old(comments), CommentId, id).value;
        && comments == old(comments)[i := MapCommentDtoToComment(commentDto, old(comments)[i])]
        && r == Some(comments[i])
        && GetByIdAsync(id) == r
      ensures old(Valid()) ==> Valid()
    {
      match IndexOfId(comments, CommentId, id)
      case None =>
        r := None;
      case Some(i) =>
        var updated := MapCommentDtoToComment(commentDto, comments[i]);
        ReplaceKeepsIds(comments, CommentId, i, updated);
        comments := comments[i := updated];
        r := Some(updated);
    }
  }
}
