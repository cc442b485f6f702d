/** The in-memory test doubles of the two repositories: each keeps a list it
    changes in place, numbers new records one past the largest id, and looks
    records up by id. */
module MockRepositories {
  import opened Wrappers
  import opened Numerics
  import opened Models
  import opened Tables
  import opened Helpers
  import opened StockDtos
  import opened CommentDtos
  import opened StockMapper
  import opened CommentMapper
  import opened StockQuery

  /** The three stocks the stock double starts with. */
  const SeedStocks: seq<Stock> := [
    Stock(1, "AAPL", "Apple Inc.", 150.00, 0.5, "Technology", 2000000000000, []),
    Stock(2, "MSFT", "Microsoft Corporation", 250.00, 0.6, "Technology", 1800000000000, []),
    Stock(3, "GOOGL", "Alphabet Inc.", 2800.00, 0.0, "Technology", 1500000000000, [])
  ]

  /** The three comments on stock 1 the comment double starts with; each reads
      the clock itself, at `t1`, `t2` and `t3`. */
  function SeedComments(t1: DateTime, t2: DateTime, t3: DateTime): seq<Comment> {
    [ Comment(1, "Great Investment", "This stock has been performing well", t1, 1),
      Comment(2, "Concerns", "I have some concerns about recent news", t2, 1),
      Comment(3, "Long-term outlook", "Looking good for the next 5 years", t3, 1) ]
  }

  class MockStockRepository {
    var stocks: seq<Stock>

    /** Ids are unique and positive: the seed's are, and `CreateAsync` keeps them so
        while the largest id is below `int.MaxValue`. */
    ghost predicate Valid()
      reads this
    {
      UniqueIds(stocks, StockId) && PositiveIds(stocks, StockId)
    }

    constructor()
      ensures stocks == SeedStocks
      ensures Valid()
    {
      stocks := SeedStocks;
    }

    /** `FirstOrDefault(s => s.Id == id)`. */
    function GetByIdAsync(id: Int32): (r: Option<Stock>)
      reads this
      ensures r.None? <==> forall x :: x in stocks ==> x.id != id
      ensures r.Some? ==> r.value in stocks && r.value.id == id
      ensures r.Some? ==> IsFirstWithId(stocks, StockId, id, r.value)
    {
      FirstWithId(stocks, StockId, id)
    }

    /** `Any(s => s.Id == id)`. */
    function StockExists(id: Int32): (r: bool)
      reads this
      ensures r <==> exists x :: x in stocks && x.id == id
      ensures r <==> GetByIdAsync(id).Some?
    {
      AnyWithIdMeaning(stocks, StockId, id);
      AnyWithId(stocks, StockId, id)
    }

    /** The filter, sort and page pipeline over the stored list. */
    function GetAllAsync(query: QueryObject): (r: seq<Stock>)
      reads this
      ensures forall x :: x in r ==> x in stocks && MockMatches(query, x)
      ensures query.pageSize > 0 ==> |r| <= query.pageSize
      ensures query.pageSize <= 0 ==> r == []
      ensures query.pageNumber == 1 && query.pageSize >= |stocks| ==>
        forall x :: x in r <==> x in stocks && MockMatches(query, x)
    {
      MockGetAllSpec(stocks, query);
      MockGetAll(stocks, query)
    }

    /** Numbers the stock one past the largest id and appends it. On an empty
        list `Max` throws, and nothing is stored. */
    method CreateAsync(stockModel: Stock) returns (r: Result<Stock, TableError>)
      modifies this
      ensures old(stocks) == [] ==> r == Failure(SequenceContainsNoElements) && stocks == old(stocks)
      ensures old(stocks) != [] ==>
        && r == Success(stockModel.(id := Wrap32(MaxId(old(stocks), StockId) + 1)))
        && stocks == old(stocks) + [r.value]
      ensures old(stocks) != [] && MaxId(old(stocks), StockId) < INT32_MAX ==>
        && r.value.id == MaxId(old(stocks), StockId) + 1
        && (forall x :: x in old(stocks) ==> x.id < r.value.id)
        && GetByIdAsync(r.value.id) == Some(r.value)
        && (old(Valid()) ==> Valid())
    {
      if stocks == [] {
        return Failure(SequenceContainsNoElements);
      }
      var m := MaxId(stocks, StockId);
      var created := stockModel.(id := Wrap32(m + 1));
      if m < INT32_MAX {
        NextIdIsFresh(stocks, StockId, created);
      }
      stocks := stocks + [created];
      r := Success(created);
    }

    /** Removes the first stock with id `id` and returns it, or returns null. */
    method DeleteAsync(id: Int32) returns (r: Option<Stock>)
      modifies this
      ensures r == old(GetByIdAsync(id))
      ensures r.None? ==> stocks == old(stocks)
      ensures r.Some? ==> stocks == RemoveAt(old(stocks), IndexOfId(old(stocks), StockId, id).value)
      ensures |stocks| == |old(stocks)| - (if r.Some? then 1 else 0)
      ensures old(Valid()) ==> Valid() && GetByIdAsync(id).None?
    {
      match IndexOfId(stocks, StockId, id)
      case None =>
        r := None;
      case Some(i) =>
        r := Some(stocks[i]);
        if Valid() {
          RemovedIdIsGone(stocks, StockId, id);
        }
        stocks := RemoveAt(stocks, i);
    }

    /** Overwrites the six data fields of the first stock with id `id` and
        returns it, or returns null. */
    method UpdateAsync(id: Int32, stockDto: UpdateStockRequestDto) returns (r: Option<Stock>)
      modifies this
      ensures IndexOfId(old(stocks), StockId, id).None? ==> r.None? && stocks == old(stocks)
      ensures IndexOfId(old(stocks), StockId, id).Some? ==>
        var i := IndexOfId(old(stocks), StockId, id).value;
        && stocks == old(stocks)[i := MapStockDtoToStockModel(stockDto, old(stocks)[i])]
        && r == Some(stocks[i])
        && GetByIdAsync(id) == r
      ensures old(Valid()) ==> Valid()
    {
      match IndexOfId(stocks, StockId, id)
      case None =>
        r := None;
      case Some(i) =>
        var updated := MapStockDtoToStockModel(stockDto, stocks[i]);
        ReplaceKeepsIds(stocks, StockId, i, updated);
        stocks := stocks[i := updated];
        r := Some(updated);
    }
  }

  class MockCommentRepository {
    var comments: seq<Comment>

    /** Ids are unique and positive, as for the stock double. */
    ghost predicate Valid()
      reads this
    {
      UniqueIds(comments, CommentId) && PositiveIds(comments, CommentId)
    }

    constructor(t1: DateTime, t2: DateTime, t3: DateTime)
      ensures comments == SeedComments(t1, t2, t3)
      ensures Valid()
    {
      comments := SeedComments(t1, t2, t3);
    }

    /** A copy of the list: every stored comment, in stored order. */
    function GetAllAsync(): (r: seq<Comment>)
      reads this
      ensures |r| == |comments|
      ensures forall i :: 0 <= i < |r| ==> r[i] == comments[i]
    {
      comments[..]
    }

    /** `FirstOrDefault(c => c.Id == id)`. */
    function GetByIdAsync(id: Int32): (r: Option<Comment>)
      reads this
      ensures r.None? <==> forall x :: x in comments ==> x.id != id
      ensures r.Some? ==> r.value in comments && r.value.id == id
      ensures r.Some? ==> IsFirstWithId(comments, CommentId, id, r.value)
    {
      FirstWithId(comments, CommentId, id)
    }

    /** Numbers the comment one past the largest id and appends it. On an empty
        list `Max` throws, and nothing is stored. */
    method CreateAsync(commentModel: Comment) returns (r: Result<Comment, TableError>)
      modifies this
      ensures old(comments) == [] ==> r == Failure(SequenceContainsNoElements) && comments == old(comments)
      ensures old(comments) != [] ==>
        && r == Success(commentModel.(id := Wrap32(MaxId(old(comments), CommentId) + 1)))
        && comments == old(comments) + [r.value]
      ensures old(comments) != [] && MaxId(old(comments), CommentId) < INT32_MAX ==>
        && r.value.id == MaxId(old(comments), CommentId) + 1
        && (forall x :: x in old(comments) ==> x.id < r.value.id)
        && GetByIdAsync(r.value.id) == Some(r.value)
        && (old(Valid()) ==> Valid())
    {
      if comments == [] {
        return Failure(SequenceContainsNoElements);
      }
      var m := MaxId(comments, CommentId);
      var created := commentModel.(id := Wrap32(m + 1));
      if m < INT32_MAX {
        NextIdIsFresh(comments, CommentId, created);
      }
      comments := comments + [created];
      r := Success(created);
    }

    /** Removes the first comment with id `id` and returns it, or returns null. */
    method DeleteAsync(id: Int32) returns (r: Option<Comment>)
      modifies this
      ensures r == old(GetByIdAsync(id))
      ensures r.None? ==> comments == old(comments)
      ensures r.Some? ==> comments == RemoveAt(old(comments), IndexOfId(old(comments), CommentId, id).value)
      ensures |comments| == |old(comments)| - (if r.Some? then 1 else 0)
      ensures old(Valid()) ==> Valid() && GetByIdAsync(id).None?
    {
      match IndexOfId(comments, CommentId, id)
      case None =>
        r := None;
      case Some(i) =>
        r := Some(comments[i]);
        if Valid() {
          RemovedIdIsGone(comments, CommentId, id);
        }
        comments := RemoveAt(comments, i);
    }

    /** Overwrites Title and Content of the first comment with id `id` and
        returns it, or returns null. */
    method UpdateAsync(id: Int32, commentDto: UpdateCommentRequestDto) returns (r: Option<Comment>)
      modifies this
      ensures IndexOfId(old(comments), CommentId, id).None? ==> r.None? && comments == old(comments)
      ensures IndexOfId(old(comments), CommentId, id).Some? ==>
        var i := IndexOfId(old(comments), CommentId, id).value;
        && comments == old(comments)[i := MapCommentDtoToComment(commentDto, old(comments)[i])]
        && r == Some(comments[i])
        && GetByIdAsync(id) == r
      ensures old(Valid()) ==> Valid()
    {
      match IndexOfId(comments, CommentId, id)
      case None =>
        r := None;
      case Some(i) =>
        var updated := MapCommentDtoToComment(commentDto, comments[i]);
        ReplaceKeepsIds(comments, CommentId, i, updated);
        comments := comments[i := updated];
        r := Some(updated);
    }
  }
}
