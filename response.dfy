/** The uniform result value every flow returns (`my.taxi.base.Response`) and the
    error payload it carries (`ApiError`). */
module Responses {
  import opened Java

  datatype HttpStatus = OK | NotFound | Unauthorized {
    function Code(): int
    {
      match this
      case OK => 200
      case NotFound => 404
      case Unauthorized => 401
    }
  }

  /** `ApiError`: every field is nullable. */
  datatype ApiError = ApiError(code: Option<int>, message: Option<string>, details: Option<seq<string>>)

  datatype Response<R> = Response(
    id: Option<string>,
    success: bool,
    result: Option<R>,
    error: Option<ApiError>,
    status: HttpStatus)

  /** The shape the factories guarantee: a success carries a result and no error,
      a failure carries an error and no result. */
  predicate WellFormed<R>(r: Response<R>)
  {
    if r.success then r.result.Some? && r.error.None? else r.result.None? && r.error.Some?
  }

  /** `Response.ok(data)`. */
  function Ok<R>(data: R): (r: Response<R>)
    ensures WellFormed(r) && r.success
    ensures r.result == Some(data) && r.status == OK && r.id.None?
  {
    Response(None, true, Some(data), None, OK)
  }

  /** `Response.ok(id, data)`: as `Ok`, keeping the caller's id. */
  function OkWithId<R>(id: Option<string>, data: R): (r: Response<R>)
    ensures WellFormed(r) && r.success
    ensures r.result == Some(data) && r.status == OK && r.id == id
  {
    Response(id, true, Some(data), None, OK)
  }

  /** `Response.fail(code, message, status)`. */
  function Fail<R>(code: int, message: string, status: HttpStatus): (r: Response<R>)
    ensures WellFormed(r) && !r.success
    ensures r.error == Some(ApiError(Some(code), Some(message), None))
    ensures r.status == status && r.id.None?
  {
    Response(None, false, None, Some(ApiError(Some(code), Some(message), None)), status)
  }

  /** `Response.fail(code, error, status)`: the code comes from the parameter, the
      message and details from the given error, whose own code is dropped. */
  function FailWith<R>(code: int, error: ApiError, status: HttpStatus): (r: Response<R>)
    ensures WellFormed(r) && !r.success
    ensures r.error == Some(error.(code := Some(code)))
    ensures r.status == status && r.id.None?
  {
    Response(None, false, None, Some(ApiError(Some(code), error.message, error.details)), status)
  }

  /** The two failure factories agree when the given error has a message and no details. */
  lemma FailWithMessageOnly<R>(code: int, other: Option<int>, message: string, status: HttpStatus)
    ensures FailWith<R>(code, ApiError(other, Some(message), None), status) == Fail<R>(code, message, status)
  {
  }
}
