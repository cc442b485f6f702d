/** Version 1 of the comment endpoints. Every action first refuses an invalid
    model state; creating a comment also needs the stock to exist. The model
    state's validity is an input, since the framework computes it from the
    request before the action runs. */
module CommentControllerV1 {
  import opened Wrappers
  import opened Numerics
  import opened Models
  import opened Tables
  import opened CommentDtos
  import opened CommentMapper
  import opened Repository
  import opened ActionResults

  class CommentController {
    const commentRepo: CommentRepository
    const stockRepo: StockRepository

    constructor(commentRepo: CommentRepository, stockRepo: StockRepository)
      ensures this.commentRepo == commentRepo && this.stockRepo == stockRepo
    {
      this.commentRepo := commentRepo;
      this.stockRepo := stockRepo;
    }

    /** `GET /comments`: one DTO per stored comment, in stored order. */
    function GetAll(modelStateValid: bool): (r: ActionResult<seq<CommentDto>>)
      reads this, commentRepo
      ensures !modelStateValid <==> r == BadRequest(ModelStateErrors)
      ensures modelStateValid ==>
        && r.Ok?
        && |r.value| == |commentRepo.comments|
        && forall i :: 0 <= i < |r.value| ==> r.value[i] == ToCommentDto(commentRepo.comments[i])
    {
      if !modelStateValid then BadRequest(ModelStateErrors)
      else
        var comments := commentRepo.GetAllAsync();
        Ok(seq(|comments|, i requires 0 <= i < |comments| => ToCommentDto(comments[i])))
    }

    /** `GET /comments/{id}`: 404 when no comment has the id, otherwise 200
        with its DTO. */
    function GetById(modelStateValid: bool, id: Int32): (r: ActionResult<CommentDto>)
      reads this, commentRepo
      ensures !modelStateValid <==> r == BadRequest(ModelStateErrors)
      ensures modelStateValid ==> (r.NotFound? <==> forall x :: x in commentRepo.comments ==> x.id != id)
      ensures modelStateValid ==> r.NotFound? || r.Ok?
      ensures r.Ok? ==> r.value.id == id
      ensures r.Ok? ==> exists x :: IsFirstWithId(commentRepo.comments, CommentId, id, x) && r.value == ToCommentDto(x)
    {
      if !modelStateValid then BadRequest(ModelStateErrors)
      else match commentRepo.GetByIdAsync(id)
        case None => NotFound
        case Some(comment) => Ok(ToCommentDto(comment))
    }

    /** `POST /comments/{stockId}`: refused with a 400 and nothing stored when the
        model state is invalid or no stock has the id; otherwise the comment is
        stored for that stock and the answer is 201 with its id. */
    method Create(modelStateValid: bool, stockId: Int32, commentDto: CreateCommentRequestDto,
                  createdOn: DateTime, generatedId: Int32)
      returns (r: ActionResult<CommentDto>)
      modifies commentRepo
      ensures !modelStateValid ==> r == BadRequest(ModelStateErrors)
      ensures modelStateValid && !stockRepo.StockExists(stockId) ==> r == BadRequest(StockDoesNotExist)
      ensures r.BadRequest? ==> commentRepo.comments == old(commentRepo.comments)
      ensures modelStateValid && stockRepo.StockExists(stockId) ==>
        && r == CreatedAtAction(generatedId, CommentDto(generatedId, commentDto.title, commentDto.content, createdOn, stockId))
        && commentRepo.comments == old(commentRepo.comments) + [ToComment(commentDto, stockId, createdOn).(id := generatedId)]
      ensures r.CreatedAtAction? ==> exists s :: s in stockRepo.stocks && s.id == r.value.stockId
    {
      if !modelStateValid {
        return BadRequest(ModelStateErrors);
      }
      var stockExists := stockRepo.StockExists(stockId);
      if !stockExists {
        return BadRequest(StockDoesNotExist);
      }
      var commentModel := ToComment(commentDto, stockId, createdOn);
      commentModel := commentRepo.CreateAsync(commentModel, generatedId);
      r := CreatedAtAction(commentModel.id, ToCommentDto(commentModel));
    }

    /** `PUT /comments/{id}`: 200 with the updated comment's DTO when the id
        exists, 200 with a null body when it does not. */
    method Update(modelStateValid: bool, id: Int32, commentDto: UpdateCommentRequestDto)
      returns (r: ActionResult<Option<CommentDto>>)
      modifies commentRepo
      ensures !modelStateValid ==> r == BadRequest(ModelStateErrors) && commentRepo.comments == old(commentRepo.comments)
      ensures modelStateValid && old(commentRepo.GetByIdAsync(id)).None? ==>
        r == Ok(None) && commentRepo.comments == old(commentRepo.comments)
      ensures modelStateValid && old(commentRepo.GetByIdAsync(id)).Some? ==>
        var c := old(commentRepo.GetByIdAsync(id)).value;
        var i := IndexOfId(old(commentRepo.comments), CommentId, id).value;
        && commentRepo.comments == old(commentRepo.comments)[i := MapCommentDtoToComment(commentDto, old(commentRepo.comments)[i])]
        && r == Ok(Some(ToCommentDto(MapCommentDtoToComment(commentDto, c))))
        && r.value.value == CommentDto(id, commentDto.title, commentDto.content, c.createdOn, c.stockId)
        && commentRepo.GetByIdAsync(id) == Some(MapCommentDtoToComment(commentDto, c))
      ensures |commentRepo.comments| == |old(commentRepo.comments)|
    {
      if !modelStateValid {
        return BadRequest(ModelStateErrors);
      }
      var commentModel := commentRepo.UpdateAsync(id, commentDto);
      r := Ok(match commentModel case None => None case Some(c) => Some(ToCommentDto(c)));
    }

    /** `DELETE /comments/{id}`: one repository delete, then 204 whether or not
        the id existed. */
    method Delete(modelStateValid: bool, id: Int32) returns (r: ActionResult<CommentDto>)
      modifies commentRepo
      ensures !modelStateValid ==> r == BadRequest(ModelStateErrors) && commentRepo.comments == old(commentRepo.comments)
      ensures modelStateValid ==> r == NoContent
      ensures modelStateValid && old(commentRepo.GetByIdAsync(id)).None? ==>
        commentRepo.comments == old(commentRepo.comments)
      ensures modelStateValid && old(commentRepo.GetByIdAsync(id)).Some? ==>
        commentRepo.comments == RemoveAt(old(commentRepo.comments), IndexOfId(old(commentRepo.comments), CommentId, id).value)
    {
      if !modelStateValid {
        return BadRequest(ModelStateErrors);
      }
      var _ := commentRepo.DeleteAsync(id);
      r := NoContent;
    }
  }
}
