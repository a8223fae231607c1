/** What a controller hands back to the web layer: a `ResponseEntity` with a
    status of its own choosing, or an exception for the controller advice. */
module Http {
  import opened Common
  import opened Exceptions

  datatype Reply<T> = Ok200(body: T) | Created201(body: T) | NoContent204 | NotFound404

  /** The status code the client finally sees. */
  function StatusCode<T>(r: Result<Reply<T>, Exception>): (code: int)
    ensures r.Err? ==> code == Handle(r.error).status
    ensures r.Ok? ==> code in {200, 201, 204, 404}
  {
    match r
    case Err(e) => Handle(e).status
    case Ok(Ok200(_)) => 200
    case Ok(Created201(_)) => 201
    case Ok(NoContent204) => 204
    case Ok(NotFound404) => 404
  }
}
