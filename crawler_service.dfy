/**
 * CrawlerService: the configuration-driven crawler. It validates the search
 * terms, builds the request URI from the selected client's settings and
 * returns the body of a successful response.
 *
 * HttpUtility.UrlEncode is the parameter `urlEncode`; the HTTP exchange is
 * the parameter `send`, which maps a request URI to what came back.
 */
module CrawlerService {
  import opened Settings
  import opened Http
  import opened SearchQuery

  /** GetSelectedHttpClient: the selected client, which must be set. */
  function GetSelectedHttpClient(settings: AppSettings): (result: Result<string>)
    ensures result.Ok? <==> settings.selectedHttpClient != ""
    ensures result.Ok? ==> result.value == settings.selectedHttpClient
    ensures result.Err? ==> result.error == ArgumentException(SelectedClientMissing)
  {
    if settings.selectedHttpClient == "" then Err(ArgumentException(SelectedClientMissing))
    else Ok(settings.selectedHttpClient)
  }

  /**
   * The parameters BuildCrawlQuery puts in the URI: the encoded terms, and
   * the raw MaxSearchResults setting when it is non-empty (it is neither
   * parsed nor checked for being a positive number).
   */
  function CrawlQuery(encodedTerms: string, maxSearchResults: string): Query
  {
    Query(encodedTerms, if maxSearchResults == "" then None else Some(maxSearchResults))
  }

  /**
   * Configuration[key]: the value under `key` (an absent key reads as ""),
   * with `key` appended to the log `keysRead` of the keys consulted so far.
   */
  method ReadSetting(config: Configuration, key: string, keysRead: seq<string>)
    returns (value: string, keysReadAfter: seq<string>)
    ensures value == Setting(config, key)
    ensures keysReadAfter == keysRead + [key]
  {
    value := Setting(config, key);
    keysReadAfter := keysRead + [key];
  }

  /**
   * BuildCrawlQuery. `keysRead` lists the configuration keys consulted, in
   * order: the selected client's MaxSearchResults, exactly once, and nothing
   * when no client is selected.
   */
  method BuildCrawlQuery(searchTerms: string, settings: AppSettings, config: Configuration, urlEncode: string -> string)
    returns (query: Result<string>, keysRead: seq<string>)
    ensures settings.selectedHttpClient == ""
        ==> query == Err(ArgumentException(SelectedClientMissing)) && keysRead == []
    ensures settings.selectedHttpClient != ""
        ==> && keysRead == [MaxSearchResultsKey(settings.selectedHttpClient)]
            && query == Ok(Format(CrawlQuery(urlEncode(searchTerms), Setting(config, keysRead[0]))))
  {
    var encodedSearchTerm := urlEncode(searchTerms);
    var searchQuery := QueryPrefix + encodedSearchTerm;

    var selectedHttpClient := GetSelectedHttpClient(settings);
    if selectedHttpClient.Err? {
      return Err(selectedHttpClient.error), [];
    }

    var maxSearchResultsConfig;
    maxSearchResultsConfig, keysRead := ReadSetting(config, MaxSearchResultsKey(selectedHttpClient.value), []);

    if maxSearchResultsConfig != "" {
      searchQuery := searchQuery + "&num=" + maxSearchResultsConfig;
      assert searchQuery == QueryPrefix + encodedSearchTerm + "&" + NumParameter + maxSearchResultsConfig;
    }
    query := Ok(searchQuery);
  }

  /**
   * What the built URI says: it starts with "search?q=" and the encoded
   * terms, and carries a num parameter, equal to the raw setting, exactly
   * when MaxSearchResults is non-empty.
   */
  lemma CrawlQueryMeaning(encodedTerms: string, maxSearchResults: string)
    requires '&' !in encodedTerms && '&' !in maxSearchResults
    ensures var uri := Format(CrawlQuery(encodedTerms, maxSearchResults));
      && |uri| >= |QueryPrefix| + |encodedTerms|
      && uri[..|QueryPrefix| + |encodedTerms|] == QueryPrefix + encodedTerms
      && Parse(uri).Some?
      && Parse(uri).value.encodedTerms == encodedTerms
      && (Parse(uri).value.num.Some? <==> maxSearchResults != "")
      && (maxSearchResults != "" ==> Parse(uri).value.num.value == maxSearchResults)
  {
    var query := CrawlQuery(encodedTerms, maxSearchResults);
    ParseFormat(query);
    var uri := Format(query);
    if maxSearchResults != "" {
      assert uri == (QueryPrefix + encodedTerms) + ("&" + NumParameter + maxSearchResults);
    }
  }

  /**
   * GetSearchResults. `requests` lists the request URIs sent and `keysRead`
   * the configuration keys consulted: neither happens when a guard fails;
   * otherwise MaxSearchResults is read exactly once and exactly one request
   * is sent.
   */
  method GetSearchResults(searchTerms: string, settings: AppSettings, config: Configuration,
                          urlEncode: string -> string, send: string -> Exchange)
    returns (result: Result<string>, requests: seq<string>, keysRead: seq<string>)
    ensures searchTerms == ""
        ==> result == Err(ArgumentException(SearchTermsMissing)) && requests == [] && keysRead == []
    ensures (searchTerms != "" && settings.selectedHttpClient == "")
        ==> result == Err(ArgumentException(SelectedClientMissing)) && requests == [] && keysRead == []
    ensures (searchTerms != "" && settings.selectedHttpClient != "")
        ==> && keysRead == [MaxSearchResultsKey(settings.selectedHttpClient)]
            && requests == [Format(CrawlQuery(urlEncode(searchTerms), Setting(config, keysRead[0])))]
            && result == ReadResponse(send(requests[0]))
  {
    if searchTerms == "" {
      return Err(ArgumentException(SearchTermsMissing)), [], [];
    }

    var query;
    query, keysRead := BuildCrawlQuery(searchTerms, settings, config, urlEncode);
    if query.Err? {
      return Err(query.error), [], keysRead;
    }

    requests := [query.value];
    var response := send(query.value);
    result := ReadResponse(response);
  }
}
