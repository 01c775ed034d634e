/** The two RPC handlers as pure functions. The outbound HTTP exchange
    (request, body read and JSON decoding) is a parameter: `fetch` maps the
    query parameters to what the exchange produced. */
module Handlers {
  import opened Wrappers
  import opened Json
  import opened Validation
  import opened QueryParams
  import opened Translate

  /** What the outbound call produced: the GET failed, reading the body
      failed, or a body arrived and was decoded (None when decoding failed).
      The HTTP status code is not inspected, so any status yields Received. */
  datatype Exchange =
    | HttpFailed(reason: string)
    | ReadFailed(reason: string)
    | Received(decoded: Option<Object>)

  datatype Operation = SearchMoviesCall | GetMovieByIdCall

  /** Why the Internal status was returned. */
  datatype InternalDetail =
    | Transport(reason: string)
    | Translation(op: Operation, cause: Cause)

  /** The error a handler returns: an InvalidArgument status, an Internal
      status, or the body-read error returned as it is, without a status. */
  datatype Status =
    | InvalidArgument(violation: Violation)
    | Internal(detail: InternalDetail)
    | Unwrapped(reason: string)

  /** SearchMovies: validate, build the parameters, call out, translate. */
  function SearchMovies(apiKey: string, req: SearchRequest, fetch: seq<Param> -> Exchange): (r: Result<SearchResponse, Status>)
    ensures (r.Failure? && r.error.InvalidArgument?) <==> !AcceptableSearch(req)
    ensures !AcceptableSearch(req) ==> r == Failure(InvalidArgument(ValidateSearch(req).error))
    ensures r.Success? ==>
      && fetch(SearchParams(apiKey, req)).Received?
      && TranslateSearch(BodyObject(fetch(SearchParams(apiKey, req)).decoded)) == Success(r.value)
    ensures AcceptableSearch(req) ==>
      match fetch(SearchParams(apiKey, req))
      case HttpFailed(reason) => r == Failure(Internal(Transport(reason)))
      case ReadFailed(reason) => r == Failure(Unwrapped(reason))
      case Received(decoded) =>
        && (TranslateSearch(BodyObject(decoded)).Success? ==> r == Success(TranslateSearch(BodyObject(decoded)).value))
        && (TranslateSearch(BodyObject(decoded)).Failure? ==>
              r == Failure(Internal(Translation(SearchMoviesCall, TranslateSearch(BodyObject(decoded)).error))))
    ensures AcceptableSearch(req) && fetch(SearchParams(apiKey, req)) == Received(None) ==>
      r == Failure(Internal(Translation(SearchMoviesCall, MissingField(TotalResultsKey))))
  {
    match ValidateSearch(req)
    case Fail(violation) => Failure(InvalidArgument(violation))
    case Pass =>
      match fetch(SearchParams(apiKey, req))
      case HttpFailed(reason) => Failure(Internal(Transport(reason)))
      case ReadFailed(reason) => Failure(Unwrapped(reason))
      case Received(decoded) =>
        match TranslateSearch(BodyObject(decoded))
        case Success(response) => Success(response)
        case Failure(cause) => Failure(Internal(Translation(SearchMoviesCall, cause)))
  }

  /** GetMovieByID: validate, build the parameters, call out, translate. */
  function GetMovieByID(apiKey: string, req: ByIdRequest, fetch: seq<Param> -> Exchange): (r: Result<MovieDetail, Status>)
    ensures (r.Failure? && r.error.InvalidArgument?) <==> req.id == ""
    ensures req.id == "" ==> r == Failure(InvalidArgument(MissingId))
    ensures r.Success? ==>
      && r.value.id == req.id
      && fetch(ByIdParams(apiKey, req)).Received?
      && TranslateMovie(req.id, BodyObject(fetch(ByIdParams(apiKey, req)).decoded)) == Success(r.value)
    ensures req.id != "" ==>
      match fetch(ByIdParams(apiKey, req))
      case HttpFailed(reason) => r == Failure(Internal(Transport(reason)))
      case ReadFailed(reason) => r == Failure(Unwrapped(reason))
      case Received(decoded) =>
        && (TranslateMovie(req.id, BodyObject(decoded)).Success? ==>
              r == Success(TranslateMovie(req.id, BodyObject(decoded)).value))
        && (TranslateMovie(req.id, BodyObject(decoded)).Failure? ==>
              r == Failure(Internal(Translation(GetMovieByIdCall, TranslateMovie(req.id, BodyObject(decoded)).error))))
    ensures req.id != "" && fetch(ByIdParams(apiKey, req)) == Received(None) ==>
      r == Failure(Internal(Translation(GetMovieByIdCall, MissingField("Title"))))
  {
    match ValidateById(req)
    case Fail(violation) => Failure(InvalidArgument(violation))
    case Pass =>
      match fetch(ByIdParams(apiKey, req))
      case HttpFailed(reason) => Failure(Internal(Transport(reason)))
      case ReadFailed(reason) => Failure(Unwrapped(reason))
      case Received(decoded) =>
        match TranslateMovie(req.id, BodyObject(decoded))
        case Success(detail) => Success(detail)
        case Failure(cause) => Failure(Internal(Translation(GetMovieByIdCall, cause)))
  }
}
