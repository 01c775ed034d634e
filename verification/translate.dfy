/** Translation of the decoded response body into the typed responses of
    the two handlers. Both handlers check a reserved "Error" key first, then
    walk their required fields in a fixed order, each for presence and then
    for its expected JSON type, and stop at the first failure. */
module Translate {
  import opened Wrappers
  import opened Json
  import opened Decimal
  import Text

  /** Why a body could not be translated. The messages themselves are not
      modelled; each cause carries the field it names and, where the Go
      handler's message shows it, the offending value. */
  datatype Cause =
    | UpstreamError(message: JValue)                 // the body holds "Error"
    | MissingField(field: string)                    // the key is absent
    | UnexpectedValue(field: string, actual: JValue)  // the key holds the wrong JSON type
    | UnexpectedElement(field: string, printed: JValue) // a Search element is not an object; see PrintedFor
    | Unparseable(field: string, actual: JValue)     // a string that is not a decimal uint64

  const ErrorKey: string := "Error"
  const TotalResultsKey: string := "totalResults"
  const SearchKey: string := "Search"

  /** The string fields of one search element, in the order they are checked. */
  const SummaryFields: seq<string> := ["imdbID", "Title", "Year", "Type", "Poster"]

  /** The string fields of a by-id body, in the order they are checked. */
  const DetailFields: seq<string> :=
    ["Title", "Year", "Rated", "Genre", "Plot", "Director", "Actors",
     "Language", "Country", "Type", "Poster"]

  /** One search hit. */
  datatype MovieResult = MovieResult(id: string, title: string, year: string, movieType: string, posterUrl: string)

  /** The search response: the upstream count and the hits in upstream order. */
  datatype SearchResponse = SearchResponse(totalResults: uint64, movies: seq<MovieResult>)

  /** The by-id response. */
  datatype MovieDetail = MovieDetail(
    id: string, title: string, year: string, rated: string, genre: string,
    plot: string, director: string, actors: seq<string>, language: string,
    country: string, movieType: string, posterUrl: string)

  /** `field` is present in `obj` and holds a string. */
  predicate HasString(obj: Object, field: string) {
    field in obj && obj[field].JStr?
  }

  /** The string `field` holds; only meaningful when HasString(obj, field). */
  function Str(obj: Object, field: string): string {
    if HasString(obj, field) then obj[field].str else ""
  }

  predicate AllStrings(obj: Object, fields: seq<string>) {
    forall i :: 0 <= i < |fields| ==> HasString(obj, fields[i])
  }

  /** `fields[i]` is the first of `fields` that is not a present string. */
  predicate FirstBadField(obj: Object, fields: seq<string>, i: int) {
    && 0 <= i < |fields|
    && !HasString(obj, fields[i])
    && forall j :: 0 <= j < i ==> HasString(obj, fields[j])
  }

  /** The error reported for a field that is not a present string: a
      missing key is reported as such, a present key of another type with
      the value it holds. */
  function FieldError(obj: Object, field: string): Cause {
    if field !in obj then MissingField(field) else UnexpectedValue(field, obj[field])
  }

  /** One presence-then-string check of a field. */
  function RequireString(obj: Object, field: string): (r: Result<string, Cause>)
    ensures r.Success? <==> HasString(obj, field)
    ensures r.Success? ==> r.value == Str(obj, field)
    ensures r.Failure? ==> r.error == FieldError(obj, field)
  {
    if field !in obj then Failure(MissingField(field))
    else if obj[field].JStr? then Success(obj[field].str)
    else Failure(UnexpectedValue(field, obj[field]))
  }

  /** The presence-then-string checks of `fields`, in order, stopping at the
      first failure; on success, the strings in field order. */
  function Walk(obj: Object, fields: seq<string>): (r: Result<seq<string>, Cause>)
    ensures r.Success? <==> AllStrings(obj, fields)
    ensures r.Success? ==>
      && |r.value| == |fields|
      && forall i :: 0 <= i < |fields| ==> r.value[i] == Str(obj, fields[i])
    ensures r.Failure? ==> r.error.MissingField? || r.error.UnexpectedValue?
    decreases |fields|
  {
    if fields == [] then Success([])
    else
      var v :- RequireString(obj, fields[0]);
      var rest :- Walk(obj, fields[1..]);
      assert forall i :: 0 < i < |fields| ==> fields[i] == fields[1..][i - 1];
      Success([v] + rest)
  }

  /** A walk that fails reports the first field that is not a present
      string, and reports it as missing or as mistyped accordingly. */
  lemma {:induction false} WalkFailsAtFirstBadField(obj: Object, fields: seq<string>)
    requires !AllStrings(obj, fields)
    ensures exists i :: FirstBadField(obj, fields, i) && Walk(obj, fields) == Failure(FieldError(obj, fields[i]))
    decreases |fields|
  {
    if HasString(obj, fields[0]) {
      assert !AllStrings(obj, fields[1..]) by {
        var k :| 0 <= k < |fields| && !HasString(obj, fields[k]);
        assert fields[k] == fields[1..][k - 1];
      }
      WalkFailsAtFirstBadField(obj, fields[1..]);
      var j :| FirstBadField(obj, fields[1..], j) && Walk(obj, fields[1..]) == Failure(FieldError(obj, fields[1..][j]));
      assert FirstBadField(obj, fields, j + 1) by {
        forall m | 0 <= m < j + 1
          ensures HasString(obj, fields[m])
        {
          if m > 0 {
            assert fields[m] == fields[1..][m - 1];
          }
        }
      }
    } else {
      assert FirstBadField(obj, fields, 0);
    }
  }

  /** A walk reads nothing but its fields: two objects that agree on them
      give the same outcome. */
  lemma {:induction false} WalkReadsOnlyFields(a: Object, b: Object, fields: seq<string>)
    requires forall i :: 0 <= i < |fields| ==> (fields[i] in a <==> fields[i] in b)
    requires forall i :: 0 <= i < |fields| && fields[i] in a ==> a[fields[i]] == b[fields[i]]
    ensures Walk(a, fields) == Walk(b, fields)
    decreases |fields|
  {
    if fields != [] {
      assert fields[0] in a <==> fields[0] in b;
      WalkReadsOnlyFields(a, b, fields[1..]);
    }
  }

  /** A search element that translates: an object whose five fields are
      present strings. */
  predicate SummaryOk(item: JValue) {
    item.JObj? && AllStrings(item.fields, SummaryFields)
  }

  /** The value the Go handler prints when element `k` of `items` is not an
      object. The message shows the handler's shared `val` variable, not the
      element. Before the first element `val` holds the Search list
      (`shown`). Each element that passes leaves its Poster string there, so
      for k > 0 it is element k-1's Poster. (Element k is reached only when
      element k-1 passed, so element k-1 is then an object.) */
  function PrintedFor(shown: JValue, items: seq<JValue>, k: int): JValue
    requires 0 <= k < |items|
  {
    if k == 0 || !items[k - 1].JObj? then shown
    else JStr(Str(items[k - 1].fields, "Poster"))
  }

  /** The hit an element yields, its five fields copied verbatim. */
  function SummaryOf(item: JValue): MovieResult
    requires item.JObj?
  {
    var f := item.fields;
    MovieResult(Str(f, "imdbID"), Str(f, "Title"), Str(f, "Year"), Str(f, "Type"), Str(f, "Poster"))
  }

  /** Translation of one element of the Search list. `shown` is what the
      Go handler prints if the element is not an object. */
  function TranslateSummary(item: JValue, shown: JValue): (r: Result<MovieResult, Cause>)
    ensures r.Success? <==> SummaryOk(item)
    ensures !item.JObj? ==> r == Failure(UnexpectedElement(SearchKey, shown))
    ensures item.JObj? && r.Failure? ==> r.error == Walk(item.fields, SummaryFields).error
    ensures r.Success? ==> r.value == SummaryOf(item)
    ensures r.Failure? ==> !r.error.UpstreamError?
  {
    if !item.JObj? then Failure(UnexpectedElement(SearchKey, shown))
    else
      var v :- Walk(item.fields, SummaryFields);
      Success(MovieResult(v[0], v[1], v[2], v[3], v[4]))
  }

  /** Translation of the Search list element by element, in index order,
      stopping at the first element that fails. `shown` is what the Go
      handler prints for a non-object first element. Each element that passes leaves
      its Poster string to be printed for the next one. */
  function TranslateSummaries(items: seq<JValue>, shown: JValue): (r: Result<seq<MovieResult>, Cause>)
    ensures r.Success? <==> forall k :: 0 <= k < |items| ==> SummaryOk(items[k])
    ensures r.Success? ==>
      && |r.value| == |items|
      && forall k :: 0 <= k < |items| ==> items[k].JObj? && r.value[k] == SummaryOf(items[k])
    ensures r.Failure? ==> !r.error.UpstreamError?
    decreases |items|
  {
    if items == [] then Success([])
    else
      var m :- TranslateSummary(items[0], shown);
      var rest :- TranslateSummaries(items[1..], JStr(m.posterUrl));
      assert forall k :: 0 < k < |items| ==> items[k] == items[1..][k - 1];
      Success([m] + rest)
  }

  /** `items[k]` is the first element of the list that does not translate. */
  predicate FirstBadElement(items: seq<JValue>, k: int) {
    && 0 <= k < |items|
    && !SummaryOk(items[k])
    && forall j :: 0 <= j < k ==> SummaryOk(items[j])
  }

  /** A failing list translation reports the failure of its first failing
      element. If that element is not an object, the value printed is the
      one PrintedFor gives. */
  lemma {:induction false} SummariesFailAtFirstBadElement(items: seq<JValue>, shown: JValue)
    requires exists k :: 0 <= k < |items| && !SummaryOk(items[k])
    ensures exists k ::
      && FirstBadElement(items, k)
      && TranslateSummaries(items, shown) == Failure(TranslateSummary(items[k], PrintedFor(shown, items, k)).error)
    decreases |items|
  {
    if SummaryOk(items[0]) {
      var tail := items[1..];
      var next := JStr(SummaryOf(items[0]).posterUrl);
      assert exists k :: 0 <= k < |tail| && !SummaryOk(tail[k]) by {
        var k :| 0 <= k < |items| && !SummaryOk(items[k]);
        assert items[k] == tail[k - 1];
      }
      SummariesFailAtFirstBadElement(tail, next);
      var j :| FirstBadElement(tail, j)
        && TranslateSummaries(tail, next) == Failure(TranslateSummary(tail[j], PrintedFor(next, tail, j)).error);
      SummariesCons(items, shown);
      ShiftFirstBadElement(items, shown, j);
    } else {
      assert FirstBadElement(items, 0);
    }
  }

  /** One step of the list translation past an element that translates:
      the rest is translated with that element's Poster as printed value. */
  lemma SummariesCons(items: seq<JValue>, shown: JValue)
    requires |items| > 0 && SummaryOk(items[0])
    ensures TranslateSummaries(items, shown)
      == match TranslateSummaries(items[1..], JStr(SummaryOf(items[0]).posterUrl))
         case Success(rest) => Success([SummaryOf(items[0])] + rest)
         case Failure(e) => Failure(e)
  {
    assert TranslateSummary(items[0], shown) == Success(SummaryOf(items[0]));
  }

  /** The first bad element of the tail, moved one place right, is the first
      bad element of the list, printed with the same value. */
  lemma ShiftFirstBadElement(items: seq<JValue>, shown: JValue, j: int)
    requires |items| > 0 && SummaryOk(items[0])
    requires FirstBadElement(items[1..], j)
    ensures FirstBadElement(items, j + 1)
    ensures items[j + 1] == items[1..][j]
    ensures PrintedFor(JStr(SummaryOf(items[0]).posterUrl), items[1..], j) == PrintedFor(shown, items, j + 1)
  {
    var tail := items[1..];
    assert tail[j] == items[j + 1];
    if j > 0 {
      assert tail[j - 1] == items[j];
    }
    forall m | 0 <= m < j + 1
      ensures SummaryOk(items[m])
    {
      if m > 0 {
        assert items[m] == tail[m - 1];
      }
    }
  }

  /** A search body that translates, stated without check order. */
  predicate SearchBodyOk(obj: Object) {
    && ErrorKey !in obj
    && HasString(obj, TotalResultsKey)
    && ParseUint(obj[TotalResultsKey].str).Some?
    && SearchKey in obj
    && obj[SearchKey].JList?
    && forall k :: 0 <= k < |obj[SearchKey].items| ==> SummaryOk(obj[SearchKey].items[k])
  }

  /** Translation of a search body: "Error" first, then totalResults
      (present, a string, a decimal uint64), then Search (present, a list),
      then its elements. The count is taken as given and never compared with
      the length of the list. */
  function TranslateSearch(obj: Object): (r: Result<SearchResponse, Cause>)
    ensures (r.Failure? && r.error.UpstreamError?) <==> ErrorKey in obj
    ensures ErrorKey in obj ==> r == Failure(UpstreamError(obj[ErrorKey]))
    ensures r.Success? <==> SearchBodyOk(obj)
    ensures r.Success? ==>
      && ParseUint(obj[TotalResultsKey].str) == Some(r.value.totalResults)
      && |r.value.movies| == |obj[SearchKey].items|
      && forall k :: 0 <= k < |r.value.movies| ==>
           obj[SearchKey].items[k].JObj? && r.value.movies[k] == SummaryOf(obj[SearchKey].items[k])
  {
    if ErrorKey in obj then Failure(UpstreamError(obj[ErrorKey]))
    else
      var count :- RequireString(obj, TotalResultsKey);
      var total :- match ParseUint(count)
        case None => Failure(Unparseable(TotalResultsKey, obj[TotalResultsKey]))
        case Some(n) => Success(n);
      var list :- if SearchKey !in obj then Failure(MissingField(SearchKey))
        else if !obj[SearchKey].JList? then Failure(UnexpectedValue(SearchKey, obj[SearchKey]))
        else Success(obj[SearchKey]);
      var movies :- TranslateSummaries(list.items, list);
      Success(SearchResponse(total, movies))
  }

  /** The failures of a search body without "Error", in check order: each
      check is reached only when the ones before it passed, and the first
      failing one decides the error. */
  lemma SearchFailsFast(obj: Object)
    requires ErrorKey !in obj
    ensures !HasString(obj, TotalResultsKey) ==>
      TranslateSearch(obj) == Failure(FieldError(obj, TotalResultsKey))
    ensures HasString(obj, TotalResultsKey) && ParseUint(obj[TotalResultsKey].str).None? ==>
      TranslateSearch(obj) == Failure(Unparseable(TotalResultsKey, obj[TotalResultsKey]))
    ensures HasString(obj, TotalResultsKey) && ParseUint(obj[TotalResultsKey].str).Some? ==>
      && (SearchKey !in obj ==> TranslateSearch(obj) == Failure(MissingField(SearchKey)))
      && (SearchKey in obj && !obj[SearchKey].JList? ==>
            TranslateSearch(obj) == Failure(UnexpectedValue(SearchKey, obj[SearchKey])))
      && (SearchKey in obj && obj[SearchKey].JList? && TranslateSearch(obj).Failure? ==>
            exists k :: FirstBadElement(obj[SearchKey].items, k)
              && TranslateSearch(obj)
                 == Failure(TranslateSummary(obj[SearchKey].items[k], PrintedFor(obj[SearchKey], obj[SearchKey].items, k)).error))
  {
    if HasString(obj, TotalResultsKey) && ParseUint(obj[TotalResultsKey].str).Some?
       && SearchKey in obj && obj[SearchKey].JList? && TranslateSearch(obj).Failure?
    {
      var list := obj[SearchKey];
      assert TranslateSearch(obj).error == TranslateSummaries(list.items, list).error;
      SummariesFailAtFirstBadElement(list.items, list);
    }
  }

  /** Translation of a by-id body: "Error" first, then the eleven string
      fields in order. The id of the result is the requested id; the body's
      own imdbID is never read. Actors is split on ", ". */
  function TranslateMovie(id: string, obj: Object): (r: Result<MovieDetail, Cause>)
    ensures (r.Failure? && r.error.UpstreamError?) <==> ErrorKey in obj
    ensures ErrorKey in obj ==> r == Failure(UpstreamError(obj[ErrorKey]))
    ensures r.Success? <==> ErrorKey !in obj && AllStrings(obj, DetailFields)
    ensures ErrorKey !in obj && r.Failure? ==> r.error == Walk(obj, DetailFields).error
    ensures r.Success? ==>
      && r.value.id == id
      && r.value.title == Str(obj, "Title")
      && r.value.year == Str(obj, "Year")
      && r.value.rated == Str(obj, "Rated")
      && r.value.genre == Str(obj, "Genre")
      && r.value.plot == Str(obj, "Plot")
      && r.value.director == Str(obj, "Director")
      && r.value.actors == Text.Split(Str(obj, "Actors"))
      && r.value.language == Str(obj, "Language")
      && r.value.country == Str(obj, "Country")
      && r.value.movieType == Str(obj, "Type")
      && r.value.posterUrl == Str(obj, "Poster")
  {
    if ErrorKey in obj then Failure(UpstreamError(obj[ErrorKey]))
    else
      var v :- Walk(obj, DetailFields);
      Success(MovieDetail(id, v[0], v[1], v[2], v[3], v[4], v[5], Text.Split(v[6]), v[7], v[8], v[9], v[10]))
  }

  /** A by-id body without "Error" that fails reports the first of the
      eleven fields that is not a present string. */
  lemma MovieFailsFast(id: string, obj: Object)
    requires ErrorKey !in obj && !AllStrings(obj, DetailFields)
    ensures exists i ::
      FirstBadField(obj, DetailFields, i) && TranslateMovie(id, obj) == Failure(FieldError(obj, DetailFields[i]))
  {
    WalkFailsAtFirstBadField(obj, DetailFields);
  }

  /** The by-id translation reads only "Error" and its eleven fields; in
      particular a body's imdbID has no effect on the result. */
  lemma MovieReadsOnlySchema(id: string, a: Object, b: Object)
    requires (ErrorKey in a <==> ErrorKey in b) && (ErrorKey in a ==> a[ErrorKey] == b[ErrorKey])
    requires forall i :: 0 <= i < |DetailFields| ==> (DetailFields[i] in a <==> DetailFields[i] in b)
    requires forall i :: 0 <= i < |DetailFields| && DetailFields[i] in a ==> a[DetailFields[i]] == b[DetailFields[i]]
    ensures TranslateMovie(id, a) == TranslateMovie(id, b)
  {
    WalkReadsOnlyFields(a, b, DetailFields);
  }
}
