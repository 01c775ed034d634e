/** The query parameters the handlers send to the external movie API. The
    library's percent-encoding and key sorting are not modelled: parameters
    are an ordered list of key/value pairs, in the order they are added. */
module QueryParams {
  import opened Wrappers
  import opened Decimal
  import opened Validation

  datatype Param = Param(key: string, value: string)

  const SearchKeys: set<string> := {"apikey", "s", "type", "page"}
  const ByIdKeys: set<string> := {"apikey", "i"}

  /** Every value given for `key`, in order (a key may carry several). */
  function ValuesOf(ps: seq<Param>, key: string): (vs: seq<string>)
    ensures |vs| <= |ps|
    decreases |ps|
  {
    if ps == [] then []
    else (if ps[0].key == key then [ps[0].value] else []) + ValuesOf(ps[1..], key)
  }

  /** Looking a key up in a one-parameter list. */
  lemma ValuesOfSingle(p: Param)
    ensures forall key :: ValuesOf([p], key) == if p.key == key then [p.value] else []
  {
    assert [p][1..] == [];
  }

  /** Looking a key up in two parameter lists put together sees the
      values of the first list, then those of the second. */
  lemma {:induction false} ValuesOfConcat(a: seq<Param>, b: seq<Param>)
    ensures forall key :: ValuesOf(a + b, key) == ValuesOf(a, key) + ValuesOf(b, key)
    decreases |a|
  {
    if a == [] {
      assert a + b == b;
    } else {
      ValuesOfConcat(a[1..], b);
      assert (a + b)[0] == a[0];
      assert (a + b)[1..] == a[1..] + b;
    }
  }

  /** The values of `k` in a search parameter list, taken part by part:
      the key, the query, the optional filter and the page. */
  lemma SearchListValues(key: Param, query: Param, filter: seq<Param>, page: Param, k: string)
    requires |filter| <= 1
    ensures ValuesOf([key] + [query] + filter + [page], k)
      == (if key.key == k then [key.value] else [])
       + (if query.key == k then [query.value] else [])
       + (if filter != [] && filter[0].key == k then [filter[0].value] else [])
       + (if page.key == k then [page.value] else [])
  {
    ValuesOfSingle(key);
    ValuesOfSingle(query);
    ValuesOfSingle(page);
    if filter != [] {
      assert filter == [filter[0]];
      ValuesOfSingle(filter[0]);
    }
    ValuesOfConcat([key], [query]);
    ValuesOfConcat([key] + [query], filter);
    ValuesOfConcat([key] + [query] + filter, [page]);
  }

  /** The parameters of a search call: the API key, the query, the type
      only when one was given, and the page in base 10. */
  function SearchParams(apiKey: string, req: SearchRequest): (ps: seq<Param>)
    ensures forall p :: p in ps ==> p.key in SearchKeys
    ensures ValuesOf(ps, "apikey") == [apiKey]
    ensures ValuesOf(ps, "s") == [req.query]
    ensures ValuesOf(ps, "type") == if req.movieType == "" then [] else [req.movieType]
    ensures |ValuesOf(ps, "page")| == 1
    ensures Canonical(ValuesOf(ps, "page")[0]) && ParseUint(ValuesOf(ps, "page")[0]) == Some(req.page)
  {
    var key, query, kind, page :=
      Param("apikey", apiKey), Param("s", req.query),
      Param("type", req.movieType), Param("page", FormatUint(req.page));
    var filter := if req.movieType != "" then [kind] else [];
    SearchListValues(key, query, filter, page, "apikey");
    SearchListValues(key, query, filter, page, "s");
    SearchListValues(key, query, filter, page, "type");
    SearchListValues(key, query, filter, page, "page");
    [key] + [query] + filter + [page]
  }

  /** The parameters of a by-id call: exactly the API key and the id. */
  function ByIdParams(apiKey: string, req: ByIdRequest): (ps: seq<Param>)
    ensures forall p :: p in ps ==> p.key in ByIdKeys
    ensures ValuesOf(ps, "apikey") == [apiKey]
    ensures ValuesOf(ps, "i") == [req.id]
  {
    [Param("apikey", apiKey), Param("i", req.id)]
  }
}
