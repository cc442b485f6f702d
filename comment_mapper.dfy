/** Translations between the comment entity and its DTOs. */
module CommentMapper {
  import opened Numerics
  import opened Models
  import opened CommentDtos

  /** The response shape of a comment: all five fields, unchanged. */
  function ToCommentDto(c: Comment): (d: CommentDto)
    ensures d.id == c.id && d.title == c.title && d.content == c.content
    ensures d.createdOn == c.createdOn && d.stockId == c.stockId
  {
    CommentDto(c.id, c.title, c.content, c.createdOn, c.stockId)
  }

  /** A new comment entity for stock `stockId`. The id keeps its default 0
      until the table assigns one; `createdOn` is the clock reading the
      entity's initialiser takes. */
  function ToComment(d: CreateCommentRequestDto, stockId: Int32, createdOn: DateTime): (c: Comment)
    ensures c.title == d.title && c.content == d.content && c.stockId == stockId
    ensures c.id == 0 && c.createdOn == createdOn
  {
    Comment(0, d.title, d.content, createdOn, stockId)
  }

  /** The in-place update: Title and Content are overwritten, the id, the
      creation time and the stock reference are kept. */
  function MapCommentDtoToComment(src: UpdateCommentRequestDto, dest: Comment): (c: Comment)
    ensures c.title == src.title && c.content == src.content
    ensures c.id == dest.id && c.createdOn == dest.createdOn && c.stockId == dest.stockId
  {
    dest.(title := src.title, content := src.content)
  }

  /** Creating a comment and reading it back as a DTO keeps the request's text
      and the route's stock id. */
  lemma {:induction false} CreateCommentRoundTrip(d: CreateCommentRequestDto, stockId: Int32, createdOn: DateTime)
    ensures ToCommentDto(ToComment(d, stockId, createdOn)) == CommentDto(0, d.title, d.content, createdOn, stockId)
  {
  }

  /** Applying the same update twice is the same as applying it once, and a
      later update wins over an earlier one. */
  lemma {:induction false} MapCommentDtoToCommentIdempotent(a: UpdateCommentRequestDto, b: UpdateCommentRequestDto, c: Comment)
    ensures MapCommentDtoToComment(a, MapCommentDtoToComment(a, c)) == MapCommentDtoToComment(a, c)
    ensures MapCommentDtoToComment(a, MapCommentDtoToComment(b, c)) == MapCommentDtoToComment(a, c)
  {
  }
}
