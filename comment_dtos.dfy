/** The comment DTOs: the response shape and the two request bodies, with their
    validation attributes. */
module CommentDtos {
  import opened Numerics
  import opened Text
  import opened Validation
  import opened Models

  datatype CommentDto = CommentDto(
    id: Int32,
    title: string,
    content: string,
    createdOn: DateTime,
    stockId: Int32)

  datatype CreateCommentRequestDto = CreateCommentRequestDto(title: string, content: string)

  datatype UpdateCommentRequestDto = UpdateCommentRequestDto(title: string, content: string)

  /** `[Required, MinLength(5), MaxLength(280)]`, the attributes of every
      Title and Content property. */
  predicate ValidCommentText(s: string) {
    Required(s) && MinLength(s, 5) && MaxLength(s, 280)
  }

  predicate ValidCreateCommentRequest(d: CreateCommentRequestDto) {
    ValidCommentText(d.title) && ValidCommentText(d.content)
  }

  predicate ValidUpdateCommentRequest(d: UpdateCommentRequestDto) {
    ValidCommentText(d.title) && ValidCommentText(d.content)
  }

  /** A newly constructed request has empty strings. */
  const DefaultCreateCommentRequest := CreateCommentRequestDto("", "")
  const DefaultUpdateCommentRequest := UpdateCommentRequestDto("", "")

  /** The length bounds and the blank check decide validity of a create request. */
  lemma {:induction false} CreateCommentRequestValidity(d: CreateCommentRequestDto)
    ensures ValidCreateCommentRequest(d) ==> 5 <= |d.title| <= 280 && 5 <= |d.content| <= 280
    ensures IsBlank(d.title) || IsBlank(d.content) ==> !ValidCreateCommentRequest(d)
    ensures !ValidCreateCommentRequest(DefaultCreateCommentRequest)
    ensures !ValidCreateCommentRequest(CreateCommentRequestDto("     ", "valid content"))
  {
    assert IsBlank("     ");
  }

  /** The same rules for an update request. */
  lemma {:induction false} UpdateCommentRequestValidity(d: UpdateCommentRequestDto)
    ensures ValidUpdateCommentRequest(d) ==> 5 <= |d.title| <= 280 && 5 <= |d.content| <= 280
    ensures IsBlank(d.title) || IsBlank(d.content) ==> !ValidUpdateCommentRequest(d)
    ensures !ValidUpdateCommentRequest(DefaultUpdateCommentRequest)
    ensures !ValidUpdateCommentRequest(UpdateCommentRequestDto("valid title", "     "))
  {
    assert IsBlank("     ");
  }
}
