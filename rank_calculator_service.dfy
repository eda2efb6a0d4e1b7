/**
 * RankCalculatorService: the configuration-driven rank calculator.
 *
 * The selected HTTP client names the configuration section the lookup
 * pattern comes from; the string a result link must contain is the target
 * URL's host followed by the configured directory path, if any.
 */
module RankCalculatorService {
  import opened Text
  import opened Settings
  import opened Ranking

  /**
   * The string a captured link must contain: the host, with the configured
   * directory path appended when that setting is non-empty. No separator
   * is checked, so a path "/blah" is also found inside "/blahblah".
   */
  function MatchTarget(host: string, config: Configuration): string
  {
    var directoryPath := Setting(config, DirectoryPathKey);
    if directoryPath == "" then host else host + directoryPath
  }

  /**
   * The match target starts with the host, and what follows the host is
   * exactly the configured directory path (nothing when none is set).
   */
  lemma MatchTargetMeaning(host: string, config: Configuration)
    ensures |host| <= |MatchTarget(host, config)|
    ensures MatchTarget(host, config)[..|host|] == host
    ensures MatchTarget(host, config)[|host|..] == Setting(config, DirectoryPathKey)
  {
  }

  /**
   * GetUrlRanksFromSearchResults. `regexMatches(page, pattern)` stands for
   * Regex.Matches: the second capture group of every match of `pattern` over
   * `page`, in match order, or the exception it throws (a pattern that does
   * not parse is an ArgumentException). `host` is the target URL's host.
   */
  method GetUrlRanksFromSearchResults(searchResult: string, host: string, settings: AppSettings, config: Configuration,
                                      regexMatches: (string, string) -> Result<seq<string>>)
    returns (result: Result<string>)
    ensures settings.selectedHttpClient == "" ==> result == Err(ArgumentException(SelectedClientMissing))
    ensures (settings.selectedHttpClient != "" && Setting(config, LookupRegexKey(settings.selectedHttpClient)) == "")
        ==> result == Err(ArgumentException(LookupRegexMissing))
    ensures (settings.selectedHttpClient != "" && Setting(config, LookupRegexKey(settings.selectedHttpClient)) != ""
             && regexMatches(searchResult, Setting(config, LookupRegexKey(settings.selectedHttpClient))).Err?)
        ==> result == Err(regexMatches(searchResult, Setting(config, LookupRegexKey(settings.selectedHttpClient))).error)
    ensures result.Ok?
        <==> (&& settings.selectedHttpClient != ""
              && Setting(config, LookupRegexKey(settings.selectedHttpClient)) != ""
              && regexMatches(searchResult, Setting(config, LookupRegexKey(settings.selectedHttpClient))).Ok?)
    ensures result.Ok?
        ==> result.value == Render(Ranks(regexMatches(searchResult, Setting(config, LookupRegexKey(settings.selectedHttpClient))).value,
                                         MatchTarget(host, config)))
  {
    var selectedHttpClient := settings.selectedHttpClient;
    if selectedHttpClient == "" {
      return Err(ArgumentException(SelectedClientMissing));
    }
    var lookup := Setting(config, LookupRegexKey(selectedHttpClient));
    if lookup == "" {
      return Err(ArgumentException(LookupRegexMissing));
    }

    var rankList: seq<string> := [];
    var matches := regexMatches(searchResult, lookup);
    if matches.Err? {
      return Err(matches.error);
    }
    var links := matches.value;

    var urlToMatch := host;
    var directoryPathConfig := Setting(config, DirectoryPathKey);
    if directoryPathConfig != "" {
      urlToMatch := urlToMatch + directoryPathConfig;
    }

    assert urlToMatch == MatchTarget(host, config);
    for i := 0 to |links|
      invariant rankList == RankStrings(Ranks(links[..i], urlToMatch))
    {
      RanksStep(links, urlToMatch, i);
      var link := links[i];
      if Contains(link, urlToMatch) {
        RankStringsStep(Ranks(links[..i], urlToMatch), i + 1);
        rankList := rankList + [NatToString(i + 1)];
      } else {
        assert Ranks(links[..i + 1], urlToMatch) == Ranks(links[..i], urlToMatch) + [];
        assert Ranks(links[..i], urlToMatch) + [] == Ranks(links[..i], urlToMatch);
      }
    }
    assert links[..|links|] == links;
    result := Ok(if |rankList| > 0 then Join(rankList, ',') else "0");
  }

  /**
   * The directory path is matched as a plain substring: a link continuing
   * past the configured path, such as "/blahblah" for the path "/blah", counts.
   */
  lemma DirectoryPathIsPlainSubstring(scheme: string, host: string, path: string, rest: string)
    ensures Contains(scheme + host + path + rest, MatchTarget(host, map[DirectoryPathKey := path]))
  {
    var target := MatchTarget(host, map[DirectoryPathKey := path]);
    assert target == host + path;
    ContainsMiddle(scheme, target, rest);
    assert scheme + target + rest == scheme + host + path + rest;
  }

  /**
   * With a directory path configured, of two links on the host only the
   * one that carries the path counts.
   */
  lemma DirectoryPathRanks(scheme: string, host: string, path: string, other: string)
    requires !Contains(scheme + host + other, host + path)
    ensures Render(Ranks([scheme + host + path, scheme + host + other],
                         MatchTarget(host, map[DirectoryPathKey := path]))) == "1"
  {
    var links := [scheme + host + path, scheme + host + other];
    var target := MatchTarget(host, map[DirectoryPathKey := path]);
    DirectoryPathIsPlainSubstring(scheme, host, path, "");
    assert scheme + host + path + "" == links[0];
    assert links[..1] == [links[0]];
    assert Ranks(links, target) == [1];
    assert Render([1]) == NatToString(1);
  }

  /**
   * The directory-path test page: with "/blah/blah" configured, the link
   * carrying the path ranks and the one under "/doh/blah" does not.
   */
  lemma DirectoryPathTestPage()
    ensures var host := "www.infotrack.com.au";
            Render(Ranks(["http://" + host + "/blah/blah", "http://" + host + "/doh/blah"],
                         MatchTarget(host, map[DirectoryPathKey := "/blah/blah"]))) == "1"
  {
    DirectoryPathSecondLink();
    DirectoryPathRanks("http://", "www.infotrack.com.au", "/blah/blah", "/doh/blah");
  }

  /** The test page's second link does not carry the configured path. */
  lemma DirectoryPathSecondLink()
    ensures var host := "www.infotrack.com.au";
            !Contains("http://" + host + "/doh/blah", host + "/blah/blah")
  {
    var host := "www.infotrack.com.au";
    NotContainsByFirstChar("http://" + host + "/doh/blah", host + "/blah/blah");
  }
}
