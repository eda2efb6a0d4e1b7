/**
 * GoogleRankCalculator: the older, hard-wired rank calculator. Its lookup
 * pattern always comes from the Google client's section, it never checks a
 * selected client, and a link counts when it contains the host alone.
 */
module GoogleRankCalculator {
  import opened Text
  import opened Settings
  import opened Ranking

  /**
   * GetUrlRanksFromSearchResults. `regexMatches(page, pattern)` stands for
   * Regex.Matches: the second capture group of every match of `pattern` over
   * `page`, in match order, or the exception it throws (a pattern that does
   * not parse is an ArgumentException). `host` is the target URL's host.
   */
  method GetUrlRanksFromSearchResults(searchResult: string, host: string, config: Configuration,
                                      regexMatches: (string, string) -> Result<seq<string>>)
    returns (result: Result<string>)
    ensures Setting(config, GoogleLookupRegexKey) == "" ==> result == Err(ArgumentException(LookupRegexMissing))
    ensures (Setting(config, GoogleLookupRegexKey) != "" && regexMatches(searchResult, Setting(config, GoogleLookupRegexKey)).Err?)
        ==> result == Err(regexMatches(searchResult, Setting(config, GoogleLookupRegexKey)).error)
    ensures (Setting(config, GoogleLookupRegexKey) != "" && regexMatches(searchResult, Setting(config, GoogleLookupRegexKey)).Ok?)
        ==> result == Ok(Render(Ranks(regexMatches(searchResult, Setting(config, GoogleLookupRegexKey)).value, host)))
  {
    var lookup := Setting(config, GoogleLookupRegexKey);
    if lookup == "" {
      return Err(ArgumentException(LookupRegexMissing));
    }

    var matches := regexMatches(searchResult, lookup);
    if matches.Err? {
      return Err(matches.error);
    }
    var links := matches.value;

    var rankList: seq<string> := [];
    for i := 0 to |links|
      invariant rankList == RankStrings(Ranks(links[..i], host))
    {
      RanksStep(links, host, i);
      var link := links[i];
      if Contains(link, host) {
        RankStringsStep(Ranks(links[..i], host), i + 1);
        rankList := rankList + [NatToString(i + 1)];
      } else {
        assert Ranks(links[..i + 1], host) == Ranks(links[..i], host) + [];
        assert Ranks(links[..i], host) + [] == Ranks(links[..i], host);
      }
    }
    assert links[..|links|] == links;
    result := Ok(if |rankList| > 0 then Join(rankList, ',') else "0");
  }

  /** The test page's link on another host does not contain the host. */
  lemma TestPageMiss()
    ensures !Contains("http://www.xyz.com.au", "www.infotrack.com.au")
  {
    NotContainsByFirstChar("http://www.xyz.com.au", "www.infotrack.com.au");
  }

  /** The no-match test page: its one link is on another host, so the result is "0". */
  lemma TestPageNoMatch()
    ensures Render(Ranks(["http://www.xyz.com.au"], "www.infotrack.com.au")) == "0"
  {
    var links := ["http://www.xyz.com.au"];
    TestPageMiss();
    assert forall i :: 0 <= i < |links| ==> links[i] == "http://www.xyz.com.au";
    RankStringZeroIff(links, "www.infotrack.com.au");
  }

  /**
   * The calculators' three-result test page: links on the host, on another
   * host, and on the host again rank as "1,3".
   */
  lemma TestPageRanks()
    ensures var host := "www.infotrack.com.au";
            Render(Ranks(["http://" + host, "http://www.xyz.com.au", "http://" + host], host)) == "1,3"
  {
    var host := "www.infotrack.com.au";
    ContainsMiddle("http://", host, "");
    assert "http://" + host + "" == "http://" + host;
    TestPageMiss();
    InterleavedMatches("http://" + host, "http://www.xyz.com.au", host);
  }
}
