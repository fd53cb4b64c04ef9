/** The ActionResult values the controllers return. */
module Http {
  /** Ok(value) is 200 with a body, NoContent 204, BadRequest the automatic 400
      of a request body that fails validation, NotFound 404, Forbid 403, and
      ServerError the 500 every handler's catch block returns. */
  datatype ActionResult<T> = Ok(value: T) | NoContent | BadRequest | NotFound | Forbid | ServerError
}
