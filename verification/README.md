# omdb-proxy request pipeline, in Dafny

This project models the two gRPC handlers of the omdb-proxy server,
`SearchMovies` and `GetMovieByID` (server/omdbproxy/main.go). Each handler is
a pure pipeline around one outbound HTTP call to the OMDB API:

1. **Request validation** (`Validation`). Search rejects, in this order, an
   empty query, a query shorter than three bytes, a type filter outside
   `{"", "movie", "series", "episode"}`, and a page of 0 or above 100. By-id
   rejects only the empty id. Each rejection is an `InvalidArgument` status.
2. **Query parameters** (`QueryParams`). These are the API key plus `s`, an
   optional `type` and `page` in base 10 for search, or `i` for by-id. They
   are kept as an ordered list of key/value pairs.
3. **The outbound exchange.** This is a parameter
   `fetch: seq<Param> -> Exchange` that stands for the HTTP GET, the body
   read and the JSON decoding. A body that fails to decode (a syntax error,
   or JSON that is not an object) is `Received(None)`.
   The handler then reads it as the empty object (`Json.BodyObject`), because
   a nil Go map has no keys.
4. **Schema translation** (`Translate`). The decoded body is a
   `map<string, JValue>`. If it has an `"Error"` key, translation fails with
   that key's value, whatever the value is (even `null`) and whatever else the
   body holds. Otherwise each required field is checked for presence and then
   for its JSON type, in a fixed order, and the first failure is returned.
   Search checks `totalResults`, which must be a string that parses as a
   decimal uint64. It then checks `Search`, which must be a list, and then
   each element in index order. An element must be an object whose `imdbID`,
   `Title`, `Year`, `Type` and `Poster` are strings. By-id checks eleven
   string fields, from `Title` to `Poster`, and splits `Actors` on `", "`.
   The result's id is the requested id.

The helper modules are:
- `Decimal`: `strconv.ParseUint(s, 10, 64)` and `strconv.FormatUint(n, 10)`.
- `Text`: Go's byte length of a string, and `strings.Split` / `strings.Join`
  on `", "`.
- `Wrappers`: `Option`, `Result` and `Outcome`.
- `Examples`: concrete bodies that pin individual behaviours down.

The source repeats the same presence-then-string block once per field. The
model writes that block once, as `Translate.Walk` over the ordered field
lists `SummaryFields` and `DetailFields`. The two forms are observably the
same: same order, same first failure, same error. `Actors` is split only
after all eleven fields have passed. Splitting cannot fail, so the outcome
is the same as splitting when the field is read.

Behaviours of the code worth knowing:
- The query-length rule counts bytes (`len` on a Go string), although the
  rejection message speaks of "at least 3 characters". A one-character
  query of three UTF-8 bytes is accepted (`Validation.LengthCountsBytes`).
- The HTTP status code is never inspected. A non-2xx response with a body
  goes through translation like any other, so `Exchange` has no separate
  case for it.
- A failure to read the body is returned as the plain error, not wrapped in
  a gRPC status (`Status.Unwrapped`).
- A body that fails to decode is not reported as a decode error. Search then
  fails with a missing `totalResults` and by-id with a missing `Title`.
- When a Search element is not an object, the error prints the handler's
  shared `val` variable, not the element. For the first element that is the
  Search list. For a later element it is the previous element's Poster
  string, because each element's field reads reassign `val`
  (`Translate.PrintedFor`, `Examples.ElementAfterHitPrintsPoster`).

## Model

| member | source | states |
|---|---|---|
| Json.BodyObject | server/omdbproxy/main.go:72-73 | after a failed decode the handler reads a map with no keys at all, and a decoded object as it is; the by-id handler decodes the same way at lines 201-202 |
| Validation.ValidateSearch | server/omdbproxy/main.go:39-53 | passes exactly when the query has at least 3 bytes, the type is one of "", movie, series, episode and the page is in 1..100; each violation is reported exactly when every earlier rule passed and it fails |
| Validation.ValidateById | server/omdbproxy/main.go:183-186 | passes exactly when the id is non-empty; the only rejection is the missing id |
| Text.ByteLength | server/omdbproxy/main.go:43 | Go's len of a string is its UTF-8 byte count, at least the character count and at most four times it |
| Validation.LengthCountsBytes | server/omdbproxy/main.go:43-45 | a single three-byte character passes the length rule; the two-letter query "Ba" is too short |
| Text.ByteLengthVersusCharacters | server/omdbproxy/main.go:43 | the byte length equals the character count exactly for ASCII strings, so only non-ASCII queries are measured differently from their character count |
| QueryParams.SearchParams | server/omdbproxy/main.go:56-62 | only the keys apikey, s, type, page appear; apikey and s have exactly the key and the query; type appears, with the filter, iff the filter is non-empty; page has one value, a canonical digit string (no leading zero) that parses back to the requested page, hence the rendering of the page |
| QueryParams.ByIdParams | server/omdbproxy/main.go:189-191 | only apikey and i appear, with exactly the key and the requested id |
| Decimal.Accumulate | server/omdbproxy/main.go:100 | the overflow-checking digit loop succeeds iff every character is a digit and the value fits in 64 bits, and it yields that value |
| Decimal.ParseUint | server/omdbproxy/main.go:100-103 | parsing succeeds exactly for non-empty all-digit strings whose value is at most 2^64-1, and yields that value |
| Decimal.FormatUint | server/omdbproxy/main.go:62 | the page is rendered as a canonical digit string (no leading zero) whose value is the page |
| Decimal.ParseFormatRoundTrip | server/omdbproxy/main.go:62 | parsing the rendering of any uint64 gives it back |
| Decimal.FormatOfCanonical | server/omdbproxy/main.go:62 | every canonical digit string is the rendering of its own value |
| Decimal.LeadingZerosParse | server/omdbproxy/main.go:100 | "007" parses as 7, so a parsed count does not determine the string it came from |
| Text.Split | server/omdbproxy/main.go:283 | splitting never yields an empty list |
| Text.SplitEmpty | server/omdbproxy/main.go:283 | the empty Actors string gives one empty name, not an empty list |
| Text.JoinSplit | server/omdbproxy/main.go:283 | joining the split parts with ", " gives back the Actors string exactly |
| Text.SplitPartsHaveNoSeparator | server/omdbproxy/main.go:283 | no part of the split contains ", " |
| Text.SplitJoin | server/omdbproxy/main.go:283 | splitting the join of any non-empty list of separator-free names gives back that list, so Split and Join are inverse |
| Translate.RequireString | server/omdbproxy/main.go:221-228 | one field check succeeds iff the key is present with a string, and returns that string; otherwise it reports the field as missing, or as mistyped together with the value it holds |
| Translate.Walk | server/omdbproxy/main.go:221-319 | the field checks succeed iff every listed field is a present string; on success they return, position by position, the string of each field |
| Translate.WalkFailsAtFirstBadField | server/omdbproxy/main.go:221-319 | a failing walk reports the first listed field that is not a present string, as missing or mistyped |
| Translate.WalkReadsOnlyFields | server/omdbproxy/main.go:221-319 | the outcome depends only on the listed keys of the body |
| Translate.TranslateSummary | server/omdbproxy/main.go:115-170 | an element translates iff it is an object with string imdbID, Title, Year, Type and Poster, and yields those five strings verbatim; a non-object reports the value handed in as printed; any other failure is the field walk's |
| Translate.TranslateSummaries | server/omdbproxy/main.go:113-171 | the list translates iff every element does; the result has the list's length and order, hit k being element k's five fields verbatim |
| Translate.SummariesFailAtFirstBadElement | server/omdbproxy/main.go:114-163 | a failing list reports the failure of its first failing element; a non-object element prints the Search list if it is first, else the previous element's Poster string |
| Translate.TranslateSearch | server/omdbproxy/main.go:87-176 | an Error key, whatever its value, always gives the upstream error carrying that value, and only an Error key does; success holds exactly for bodies with a parseable string totalResults and a Search list of good elements; the count is the parsed string and the hits are the elements' fields verbatim in order, with no check of the count against the list |
| Translate.SearchFailsFast | server/omdbproxy/main.go:92-163 | without Error, the failures come in order: totalResults missing or mistyped, then totalResults unparseable, then Search missing, then Search not a list, then the first bad element |
| Translate.TranslateMovie | server/omdbproxy/main.go:216-334 | an Error key, whatever its value, always gives the upstream error, and only an Error key does; success holds exactly when all eleven fields are present strings; the result's id is the requested id, the other fields are copied verbatim, and actors is the split Actors string |
| Translate.MovieFailsFast | server/omdbproxy/main.go:221-319 | without Error, a failure names the first of Title, Year, Rated, Genre, Plot, Director, Actors, Language, Country, Type, Poster that is missing or not a string |
| Translate.MovieReadsOnlySchema | server/omdbproxy/main.go:216-334 | bodies that agree on Error and the eleven fields translate alike, so the body's imdbID is never read |
| Handlers.SearchMovies | server/omdbproxy/main.go:35-177 | InvalidArgument is returned iff validation rejects, and then without consulting the exchange; for an accepted request, a failed GET gives Internal with the transport reason, a failed read gives the unwrapped error, and a received body gives its translation's success or Internal with the translation's cause; an undecodable body fails as a missing totalResults |
| Handlers.GetMovieByID | server/omdbproxy/main.go:179-335 | InvalidArgument is returned iff the id is empty; for a non-empty id, a failed GET gives Internal with the transport reason, a failed read gives the unwrapped error, and a received body gives its translation's success (carrying the requested id) or Internal with the translation's cause; an undecodable body fails as a missing Title |
| Examples.HitTranslates | server/omdbproxy/main.go:115-170 | a well-formed element translates field for field |
| Examples.TwoElementsTranslate | server/omdbproxy/main.go:113-176 | a body that passes every search check and holds two elements translates to its parsed count and the two elements' hits, in list order |
| Examples.TwoHitsInOrder | server/omdbproxy/main.go:113-176 | a body with totalResults "2" and two hits gives count 2 and both hits in source order |
| Examples.ElementAfterHitPrintsPoster | server/omdbproxy/main.go:114-163 | a non-object second element after a hit with Poster "N/A" is reported with "N/A", not with the element or the list |
| Examples.CountNotCrossChecked | server/omdbproxy/main.go:173-176 | totalResults "5" with an empty Search list succeeds with count 5 |
| Examples.NullErrorStillFails | server/omdbproxy/main.go:87-90 | "Error": null fails the search even though the rest of the body is well-formed |
| Examples.NumericCountIsMistyped | server/omdbproxy/main.go:96-99 | a JSON number in totalResults is a type error, not a parse error |
| Examples.SignedCountIsUnparseable | server/omdbproxy/main.go:100-103 | the string "-1" in totalResults is a parse error |
| Examples.ActorsAreSplit | server/omdbproxy/main.go:283 | "Tom Hardy, Anne Hathaway" splits into exactly those two names |

## Left out

- gRPC server setup, `loadEnv`, `main`, flag parsing and the client
  program. These are process plumbing, not request logic.
- The HTTP GET, the body read and the JSON parser. They are the `fetch`
  parameter and the `Exchange` it returns. The parser's handling of duplicate
  keys and of numbers is not modelled.
- The API key's source (viper configuration). It is an opaque string
  parameter.
- Percent-encoding and key sorting of the query string by `url.Values.Encode`.
  Parameters are an ordered list of pairs.
- The text of error messages and Go's `%v` rendering. Errors are the `Cause`
  and `Status` datatypes, which carry the field, the operation and the
  offending value.
- JSON numbers are opaque (`JNum`) and are never computed with. float64
  rounding is not modelled. A number outside float64 range makes the
  decoder report an error but still fill the map, with null under that key.
  In the model that body is `Received(Some(..))` holding `JNull` there, not
  `Received(None)`.
- Context deadlines and cancellation. No handler reads its context.
- Text.Split: its contract states only that the result is non-empty. Its
  other properties are in the lemmas `JoinSplit`, `SplitJoin` and
  `SplitPartsHaveNoSeparator`. It is specialised to the one separator the
  source uses, `", "`.
