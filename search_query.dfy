/**
 * The relative request URI both crawlers send: "search?q=" followed by the
 * URL-encoded search terms, optionally followed by "&num=" and a result
 * count. Parse is the independent reading of such a URI that the
 * crawlers' query builders are checked against.
 */
module SearchQuery {
  import opened Text

  datatype Option<+T> = None | Some(value: T)

  /** The parameters a request URI carries. */
  datatype Query = Query(encodedTerms: string, num: Option<string>)

  const QueryPrefix: string := "search?q="
  const NumParameter: string := "num="

  function Format(query: Query): string
  {
    match query.num
    case None => QueryPrefix + query.encodedTerms
    case Some(n) => QueryPrefix + query.encodedTerms + "&" + NumParameter + n
  }

  function Parse(uri: string): Option<Query>
  {
    if |uri| < |QueryPrefix| || uri[..|QueryPrefix|] != QueryPrefix then None
    else
      var parts := Split(uri[|QueryPrefix|..], '&');
      if |parts| == 1 then Some(Query(parts[0], None))
      else if |parts| == 2 && |parts[1]| >= |NumParameter| && parts[1][..|NumParameter|] == NumParameter then
        Some(Query(parts[0], Some(parts[1][|NumParameter|..])))
      else None
  }

  /**
   * Neither value holds the parameter separator. HttpUtility.UrlEncode
   * writes '&' as "%26", so encoded terms always qualify.
   */
  predicate Unambiguous(query: Query)
  {
    '&' !in query.encodedTerms && (query.num.Some? ==> '&' !in query.num.value)
  }

  /** Reading a formatted URI gives back its parameters. */
  lemma ParseFormat(query: Query)
    requires Unambiguous(query)
    ensures Parse(Format(query)) == Some(query)
  {
    var uri := Format(query);
    var e := query.encodedTerms;
    match query.num
    case None =>
      assert uri[..|QueryPrefix|] == QueryPrefix;
      assert uri[|QueryPrefix|..] == e;
      SplitJoin([e], '&');
    case Some(n) =>
      var tail := NumParameter + n;
      assert uri == QueryPrefix + (e + ['&'] + tail);
      assert uri[..|QueryPrefix|] == QueryPrefix;
      assert uri[|QueryPrefix|..] == e + ['&'] + tail;
      assert '&' !in tail by {
        assert tail[..|NumParameter|] == NumParameter;
        forall k | 0 <= k < |tail|
          ensures tail[k] != '&'
        {
          if k >= |NumParameter| {
            assert tail[k] == n[k - |NumParameter|];
          }
        }
      }
      assert Join([e, tail], '&') == e + ['&'] + tail;
      SplitJoin([e, tail], '&');
      assert tail[|NumParameter|..] == n;
  }
}
