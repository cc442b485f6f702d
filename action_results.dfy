/** The HTTP results the controllers return, as far as the model distinguishes
    them: status code and body. */
module ActionResults {
  import opened Numerics

  /** The body of a 400 response: the model-state errors, or a message. */
  datatype Problem = ModelStateErrors | Message(text: string)

  datatype ActionResult<T> =
    | BadRequest(problem: Problem)
    | NotFound
    | Ok(value: T)
    /** 201, with the id the `Location` header points at. */
    | CreatedAtAction(id: Int32, value: T)
    | NoContent
    /** 500: an exception escaped the action. */
    | InternalServerError

  const StockDoesNotExist: Problem := Message("Stock does not exist")
}
