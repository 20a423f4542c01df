/** The responses the API controllers return, with the HTTP status each one carries. */
module Http {
  /**
   * `Ok`, `CreatedAtAction` (with the route id it links to), `NoContent`, `BadRequest`,
   * `Unauthorized` and `NotFound` with a `{ message }` body, `Forbid`, and `StatusCode(500, …)`.
   */
  datatype ActionResult<T> =
    | Ok(value: T)
    | CreatedAt(routeId: int, value: T)
    | NoContent
    | BadRequest(message: string)
    | Unauthorized(message: string)
    | NotFound(message: string)
    | Forbid
    | ServerError(message: string)

  function StatusCode<T>(r: ActionResult<T>): (code: int)
    ensures 200 <= code < 600
    ensures code < 300 <==> r.Ok? || r.CreatedAt? || r.NoContent?
  {
    match r
    case Ok(_) => 200
    case CreatedAt(_, _) => 201
    case NoContent => 204
    case BadRequest(_) => 400
    case Unauthorized(_) => 401
    case Forbid => 403
    case NotFound(_) => 404
    case ServerError(_) => 500
  }
}
