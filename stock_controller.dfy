/** Version 1 of the stock endpoints: each action makes one repository call and
    classifies its result. */
module StockControllerV1 {
  import opened Wrappers
  import opened Numerics
  import opened Models
  import opened Tables
  import opened Helpers
  import opened StockDtos
  import opened StockMapper
  import opened StockQuery
  import opened Repository
  import opened ActionResults

  class StockController {
    const stockRepo: StockRepository

    constructor(stockRepo: StockRepository)
      ensures this.stockRepo == stockRepo
    {
      this.stockRepo := stockRepo;
    }

    /** `GET /stocks`: one DTO per listed stock, in listing order; 500 when the
        database refuses the paging clause. */
    function GetAll(query: QueryObject): (r: ActionResult<seq<StockDto>>)
      reads this, stockRepo
      ensures r.Ok? || r.InternalServerError?
      ensures r.InternalServerError? <==> !PagingAccepted(query)
      ensures r.Ok? ==> |r.value| == |stockRepo.GetAllAsync(query).value|
      ensures r.Ok? ==> forall i :: 0 <= i < |r.value| ==> r.value[i] == ToStockDto(stockRepo.GetAllAsync(query).value[i])
      ensures r.Ok? ==> |r.value| <= query.pageSize
    {
      match stockRepo.GetAllAsync(query)
      case Failure(_) => InternalServerError
      case Success(stocks) => Ok(seq(|stocks|, i requires 0 <= i < |stocks| => ToStockDto(stocks[i])))
    }

    /** `GET /stocks/{id}`: 404 when no stock has the id, otherwise 200 with its DTO. */
    function GetById(id: Int32): (r: ActionResult<StockDto>)
      reads this, stockRepo
      ensures r.NotFound? || r.Ok?
      ensures r.NotFound? <==> forall x :: x in stockRepo.stocks ==> x.id != id
      ensures r.Ok? ==> r.value.id == id
      ensures r.Ok? ==> exists x :: IsFirstWithId(stockRepo.stocks, StockId, id, x) && r.value == ToStockDto(x)
    {
      match stockRepo.GetByIdAsync(id)
      case None => NotFound
      case Some(stock) => Ok(ToStockDto(stock))
    }

    /** `POST /stocks`: stores the mapped request and answers 201 with the new
        id and the stored stock's DTO, which repeats the request's fields. */
    method Create(stockDto: CreateStockRequestDto, generatedId: Int32) returns (r: ActionResult<StockDto>)
      modifies stockRepo
      ensures r == CreatedAtAction(generatedId, ToStockDto(ToStock(stockDto).(id := generatedId)))
      ensures DataOfDto(r.value) == DataOfCreate(stockDto) && r.value.comments == []
      ensures stockRepo.stocks == old(stockRepo.stocks) + [ToStock(stockDto).(id := generatedId)]
    {
      var stockModel := ToStock(stockDto);
      stockModel := stockRepo.CreateAsync(stockModel, generatedId);
      CreateStockRoundTrip(stockDto, generatedId);
      r := CreatedAtAction(stockModel.id, ToStockDto(stockModel));
    }

    /** `PUT /stocks/{id}`: 200 in both cases, with the updated stock's DTO when
        the id exists and with a null body when it does not. The DTO lists no
        comments, since the update loads the stock without them. */
    method Update(id: Int32, updateDto: UpdateStockRequestDto) returns (r: ActionResult<Option<StockDto>>)
      modifies stockRepo
      ensures r.Ok?
      ensures old(stockRepo.GetByIdAsync(id)).None? ==>
        r.value.None? && stockRepo.stocks == old(stockRepo.stocks)
      ensures old(stockRepo.GetByIdAsync(id)).Some? ==>
        var i := IndexOfId(old(stockRepo.stocks), StockId, id).value;
        && stockRepo.stocks == old(stockRepo.stocks)[i := MapStockDtoToStockModel(updateDto, old(stockRepo.stocks)[i])]
        && r.value.Some?
        && r.value.value == ToStockDto(WithoutComments(MapStockDtoToStockModel(updateDto, old(stockRepo.GetByIdAsync(id)).value)))
        && r.value.value.id == id
        && DataOfDto(r.value.value) == DataOfUpdate(updateDto)
        && r.value.value.comments == []
        && stockRepo.GetByIdAsync(id) == Some(MapStockDtoToStockModel(updateDto, old(stockRepo.GetByIdAsync(id)).value))
      ensures |stockRepo.stocks| == |old(stockRepo.stocks)|
    {
      var stockModel := stockRepo.UpdateAsync(id, updateDto);
      r := Ok(match stockModel case None => None case Some(s) => Some(ToStockDto(s)));
    }

    /** `DELETE /stocks/{id}`: one repository delete, then 204 whether or not
        the id existed. */
    method Delete(id: Int32) returns (r: ActionResult<StockDto>)
      modifies stockRepo
      ensures r == NoContent
      ensures old(stockRepo.GetByIdAsync(id)).None? ==> stockRepo.stocks == old(stockRepo.stocks)
      ensures old(stockRepo.GetByIdAsync(id)).Some? ==>
        stockRepo.stocks == RemoveAt(old(stockRepo.stocks), IndexOfId(old(stockRepo.stocks), StockId, id).value)
    {
      var _ := stockRepo.DeleteAsync(id);
      r := NoContent;
    }
  }
}
