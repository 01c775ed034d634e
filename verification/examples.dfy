/** Worked cases of the translation, each pinning down one behaviour on a
    concrete body. */
module Examples {
  import opened Wrappers
  import opened Json
  import opened Decimal
  import opened Text
  import opened Translate

  function Hit(id: string, title: string): JValue {
    JObj(map["imdbID" := JStr(id), "Title" := JStr(title), "Year" := JStr("2008"),
             "Type" := JStr("movie"), "Poster" := JStr("N/A")])
  }

  /** A well-formed hit passes the element checks and yields its five fields. */
  lemma HitIsSummary(id: string, title: string)
    ensures SummaryOk(Hit(id, title))
    ensures SummaryOf(Hit(id, title)) == MovieResult(id, title, "2008", "movie", "N/A")
  {
    var fields := Hit(id, title).fields;
    assert forall i :: 0 <= i < |SummaryFields| ==> SummaryFields[i] in fields && fields[SummaryFields[i]].JStr?;
  }

  /** A well-formed hit translates field for field. */
  lemma HitTranslates(id: string, title: string, shown: JValue)
    ensures TranslateSummary(Hit(id, title), shown) == Success(MovieResult(id, title, "2008", "movie", "N/A"))
  {
    HitIsSummary(id, title);
  }

  /** A search body with count "2" and two well-formed hits. */
  function TwoHits(): Object {
    map["totalResults" := JStr("2"), "Search" := JList([Hit("tt1", "A"), Hit("tt2", "B")])]
  }

  /** The two-hit body passes every search check. */
  lemma TwoHitsAreWellFormed()
    ensures SearchBodyOk(TwoHits())
    ensures ParseUint(TwoHits()[TotalResultsKey].str) == Some(2)
    ensures |TwoHits()[SearchKey].items| == 2
    ensures SummaryOf(TwoHits()[SearchKey].items[0]) == MovieResult("tt1", "A", "2008", "movie", "N/A")
    ensures SummaryOf(TwoHits()[SearchKey].items[1]) == MovieResult("tt2", "B", "2008", "movie", "N/A")
  {
    var obj := TwoHits();
    HitIsSummary("tt1", "A");
    HitIsSummary("tt2", "B");
    assert ParseUint("2") == Some(2) by {
      assert Fold(0, "2") == Fold(2, "");
    }
    assert obj[TotalResultsKey] == JStr("2");
  }

  /** A body that passes every search check and holds two elements
      translates to its parsed count and the two elements' hits, in order. */
  lemma TwoElementsTranslate(obj: Object, total: uint64, first: MovieResult, second: MovieResult)
    requires SearchBodyOk(obj) && ParseUint(obj[TotalResultsKey].str) == Some(total)
    requires |obj[SearchKey].items| == 2
    requires SummaryOf(obj[SearchKey].items[0]) == first && SummaryOf(obj[SearchKey].items[1]) == second
    ensures TranslateSearch(obj) == Success(SearchResponse(total, [first, second]))
  {
    var r := TranslateSearch(obj);
    assert r.value.movies == [first, second];
  }

  /** A two-hit body translates to its count and both hits, in order. */
  lemma TwoHitsInOrder()
    ensures TranslateSearch(TwoHits())
      == Success(SearchResponse(2, [MovieResult("tt1", "A", "2008", "movie", "N/A"),
                                    MovieResult("tt2", "B", "2008", "movie", "N/A")]))
  {
    TwoHitsAreWellFormed();
    TwoElementsTranslate(TwoHits(), 2, MovieResult("tt1", "A", "2008", "movie", "N/A"),
                         MovieResult("tt2", "B", "2008", "movie", "N/A"));
  }

  /** A search body with count "1", one well-formed hit and then a number. */
  function HitThenNumber(): Object {
    map["totalResults" := JStr("1"), "Search" := JList([Hit("tt1", "A"), JNum(1.0)])]
  }

  /** The hit-then-number body passes the count and list checks; its first
      element is a hit with Poster "N/A" and its second is not an object. */
  lemma HitThenNumberShape()
    ensures ErrorKey !in HitThenNumber()
    ensures HasString(HitThenNumber(), TotalResultsKey)
    ensures ParseUint(HitThenNumber()[TotalResultsKey].str).Some?
    ensures SearchKey in HitThenNumber() && HitThenNumber()[SearchKey].JList?
    ensures |HitThenNumber()[SearchKey].items| == 2
    ensures SummaryOk(HitThenNumber()[SearchKey].items[0])
    ensures Str(HitThenNumber()[SearchKey].items[0].fields, "Poster") == "N/A"
    ensures !HitThenNumber()[SearchKey].items[1].JObj?
  {
    var obj := HitThenNumber();
    HitIsSummary("tt1", "A");
    assert Value("1") == 1 by {
      assert Fold(0, "1") == Fold(1, "");
    }
    assert obj[TotalResultsKey] == JStr("1");
    assert obj[SearchKey].items[0] == Hit("tt1", "A");
  }

  /** A non-object element after a good hit is reported with that hit's
      Poster string, the last value the handler's shared variable held, and
      not with the element or the list. */
  lemma ElementAfterHitPrintsPoster()
    ensures TranslateSearch(HitThenNumber()) == Failure(UnexpectedElement("Search", JStr("N/A")))
  {
    var obj := HitThenNumber();
    HitThenNumberShape();
    var list := obj[SearchKey];
    assert !SearchBodyOk(obj) by {
      assert !SummaryOk(list.items[1]);
    }
    SearchFailsFast(obj);
    var k :| FirstBadElement(list.items, k)
      && TranslateSearch(obj) == Failure(TranslateSummary(list.items[k], PrintedFor(list, list.items, k)).error);
    assert k == 1;
  }

  /** The count is not checked against the list: "5" with no hits passes. */
  lemma CountNotCrossChecked()
    ensures TranslateSearch(map["totalResults" := JStr("5"), "Search" := JList([])])
      == Success(SearchResponse(5, []))
  {
    assert Value("5") == 5 by {
      assert Fold(0, "5") == Fold(5, "");
    }
  }

  /** A null "Error" still wins over a body that would otherwise translate. */
  lemma NullErrorStillFails()
    ensures TranslateSearch(map["Error" := JNull, "totalResults" := JStr("0"), "Search" := JList([])])
      == Failure(UpstreamError(JNull))
  {
  }

  /** A numeric totalResults is a type error, not a parse error. */
  lemma NumericCountIsMistyped()
    ensures TranslateSearch(map["totalResults" := JNum(2.0)])
      == Failure(UnexpectedValue("totalResults", JNum(2.0)))
  {
  }

  /** A string count that is not a decimal uint64 is a parse error. */
  lemma SignedCountIsUnparseable()
    ensures TranslateSearch(map["totalResults" := JStr("-1"), "Search" := JList([])])
      == Failure(Unparseable("totalResults", JStr("-1")))
  {
  }

  /** The actor list of a by-id body is the ", "-separated names. */
  lemma ActorsAreSplit()
    ensures Split("Tom Hardy, Anne Hathaway") == ["Tom Hardy", "Anne Hathaway"]
  {
    var parts := ["Tom Hardy", "Anne Hathaway"];
    assert !HasSeparator(parts[0]) by {
      forall i | SeparatorAt(parts[0], i)
        ensures false
      {
      }
    }
    assert !HasSeparator(parts[1]) by {
      forall i | SeparatorAt(parts[1], i)
        ensures false
      {
      }
    }
    assert Join(parts) == "Tom Hardy, Anne Hathaway";
    SplitJoin(parts);
  }
}
