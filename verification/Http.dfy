/** Fetching an engine's metrics endpoint. */
module Http {
  import opened Wrappers

  const STATUS_OK: int := 200

  /** What a GET of an endpoint yields; `readOk` is false when reading the body breaks off. */
  datatype Response =
    | Unreachable
    | Response(status: int, body: seq<string>, readOk: bool)

  datatype ScrapeError = RequestFailed | BadStatus(status: int) | BadBody

  /** The body of a successful scrape. */
  function BodyOf(r: Response): Result<seq<string>, ScrapeError> {
    match r
    case Unreachable => Err(RequestFailed)
    case Response(status, body, readOk) =>
      if status != STATUS_OK then Err(BadStatus(status))
      else if !readOk then Err(BadBody)
      else Ok(body)
  }
}
