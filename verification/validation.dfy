/** Request validation done by the two handlers before any outbound call. */
module Validation {
  import opened Wrappers
  import opened Decimal
  import opened Text

  datatype SearchRequest = SearchRequest(query: string, movieType: string, page: uint64)

  datatype ByIdRequest = ByIdRequest(id: string)

  /** The rule a rejected request broke; each becomes an InvalidArgument
      status with its own message. */
  datatype Violation =
    | MissingQuery       // the query is empty
    | QueryTooShort      // the query has fewer than three bytes
    | UnknownMovieType   // the type filter is not one of the accepted ones
    | PageOutOfRange     // the page is 0 or above 100
    | MissingId          // the id is empty

  const MinQueryBytes: nat := 3
  const MaxPage: nat := 100

  /** The accepted type filters; the empty string means no filter. */
  const MovieTypes: set<string> := {"", "movie", "series", "episode"}

  /** A search request every rule accepts, stated without rule order. */
  predicate AcceptableSearch(req: SearchRequest) {
    && ByteLength(req.query) >= MinQueryBytes
    && req.movieType in MovieTypes
    && 1 <= req.page <= MaxPage
  }

  /** The search handler's checks, first failure wins: empty query, then
      query shorter than three bytes, then unknown type, then a page outside
      1..100 (page is unsigned, so "below 1" can only be 0). */
  function ValidateSearch(req: SearchRequest): (r: Outcome<Violation>)
    ensures r.Pass? <==> AcceptableSearch(req)
    ensures r == Fail(MissingQuery) <==> req.query == ""
    ensures r == Fail(QueryTooShort) <==> req.query != "" && ByteLength(req.query) < MinQueryBytes
    ensures r == Fail(UnknownMovieType) <==>
      ByteLength(req.query) >= MinQueryBytes && req.movieType !in MovieTypes
    ensures r == Fail(PageOutOfRange) <==>
      ByteLength(req.query) >= MinQueryBytes && req.movieType in MovieTypes
      && (req.page == 0 || req.page > MaxPage)
    ensures r != Fail(MissingId)
  {
    if req.query == "" then Fail(MissingQuery)
    else if ByteLength(req.query) < MinQueryBytes then Fail(QueryTooShort)
    else if req.movieType != "" && req.movieType != "movie"
         && req.movieType != "series" && req.movieType != "episode"
    then Fail(UnknownMovieType)
    else if req.page < 1 || req.page > MaxPage then Fail(PageOutOfRange)
    else Pass
  }

  /** The by-id handler rejects exactly the empty id. */
  function ValidateById(req: ByIdRequest): (r: Outcome<Violation>)
    ensures r.Pass? <==> req.id != ""
    ensures r.Fail? ==> r.error == MissingId
  {
    if req.id == "" then Fail(MissingId) else Pass
  }

  /** The length rule counts bytes: a query of a single three-byte
      character is long enough, while a two-character ASCII query is not. */
  lemma LengthCountsBytes()
    ensures ValidateSearch(SearchRequest("日", "", 1)) == Pass
    ensures ValidateSearch(SearchRequest("Ba", "", 1)) == Fail(QueryTooShort)
  {
    assert ByteLength("日") == 3;
    assert ByteLength("Ba") == 2;
  }
}
