/**
 * GoogleCrawlerService: the older crawler bound to the Google client. It
 * validates the search terms and builds a URI that never carries a result
 * count; the rest of GetSearchResults is the HTTP exchange, the parameter
 * `send`.
 */
module GoogleCrawlerService {
  import opened Settings
  import opened Http
  import opened SearchQuery
  import CrawlerService

  /** BuildCrawlQuery: "search?q=" followed by the encoded terms. */
  function BuildCrawlQuery(searchTerms: string, urlEncode: string -> string): string
  {
    QueryPrefix + urlEncode(searchTerms)
  }

  /** The Google URI reads back as the encoded terms and no num parameter, whatever the configuration. */
  lemma BuildCrawlQueryMeaning(searchTerms: string, urlEncode: string -> string)
    requires '&' !in urlEncode(searchTerms)
    ensures Parse(BuildCrawlQuery(searchTerms, urlEncode)) == Some(Query(urlEncode(searchTerms), None))
  {
    ParseFormat(Query(urlEncode(searchTerms), None));
  }

  /** The Google URI is the configuration-driven one with MaxSearchResults unset. */
  lemma BuildCrawlQueryIsUnlimited(searchTerms: string, urlEncode: string -> string)
    ensures BuildCrawlQuery(searchTerms, urlEncode) == Format(CrawlerService.CrawlQuery(urlEncode(searchTerms), ""))
  {
  }

  /**
   * GetSearchResults. `requests` lists the request URIs sent: none when
   * the search terms are missing, exactly one otherwise.
   */
  method GetSearchResults(searchTerms: string, urlEncode: string -> string, send: string -> Exchange)
    returns (result: Result<string>, requests: seq<string>)
    ensures searchTerms == "" ==> result == Err(ArgumentException(SearchTermsMissing)) && requests == []
    ensures searchTerms != ""
        ==> && requests == [BuildCrawlQuery(searchTerms, urlEncode)]
            && result == ReadResponse(send(requests[0]))
  {
    if searchTerms == "" {
      return Err(ArgumentException(SearchTermsMissing)), [];
    }

    var query := BuildCrawlQuery(searchTerms, urlEncode);
    requests := [query];
    var response := send(query);
    result := ReadResponse(response);
  }
}
