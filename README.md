# SearchRankChecker: the fetch-and-rank core in Dafny

SearchRankChecker fetches a search engine's results page for some search
terms. It then reports the 1-based positions at which a target URL's host
appears among the page's result links. Two pairs of services do this work:

- **Crawlers** (`CrawlerService`, `GoogleCrawlerService`) check the
  arguments and build the relative request URI `search?q=<encoded terms>`.
  `CrawlerService` adds `&num=<MaxSearchResults>` when that setting is set.
  Each crawler sends one GET request and returns the body of a successful
  response.
- **Rank calculators** (`RankCalculatorService`, `GoogleRankCalculator`)
  scan the page with a configured lookup pattern. A match at 0-based index
  `i` counts when its second capture group contains the target string. The
  result is the counted positions `i + 1`, comma-joined in ascending order,
  or `"0"` when nothing counts. For the configuration-driven calculator, the
  target string is the host followed by the optional
  `SearchDefaults:DirectoryPath`. The older `GoogleRankCalculator` uses the
  host alone.

The model has these modules:

- `Text`: ordinal substring search, decimal rendering, and join/split. Each
  comes with a reference definition or an inverse.
- `Settings`: the configuration lookup (an absent key reads as `""`), the
  configuration keys, the error messages, and `Result`.
- `Ranking`: the rank computation shared by both calculators, as functions,
  plus what the rank string means.
- `RankCalculatorService` and `GoogleRankCalculator`: one method per
  calculator, with the source's indexed loop proved against `Ranking`.
- `Http`: the outcome of the one HTTP exchange. `SearchQuery`: the request
  URI format and an independent parser for it.
- `CrawlerService` and `GoogleCrawlerService`: the guards, query building,
  and the success or failure outcome.

Boundaries of the model:

- `Regex.Matches(page, pattern)` is the function parameter `regexMatches`.
  It returns the second capture group of every match, in match order, or
  the exception `Regex.Matches` throws. A pattern that does not parse is an
  `ArgumentException`, and the calculators pass it on unchanged.
- The target URL is given as its host.
- `HttpUtility.UrlEncode` is the function parameter `urlEncode`.
- The HTTP exchange is the function parameter `send`, which maps a request
  URI to an `Exchange`: a response `(status, body)`, or a failure before any
  response.
- The search terms, the selected client and every configuration value are
  tested with `string.IsNullOrEmpty`, so a `null` there is modelled as `""`.
  The page and the URL are never checked for `null`; a `null` page or URL is
  outside the model (see "Left out").

Two out-parameters record what the crawlers do besides returning a value:

- `keysRead` in `CrawlerService.BuildCrawlQuery` and
  `CrawlerService.GetSearchResults` lists the configuration keys the call
  reads, in order. The crawler tests check through a mock that
  `MaxSearchResults` is read exactly once.
- `requests` in both `GetSearchResults` methods lists the request URIs sent.

Facts about the code that the model keeps:

- `CrawlerService.cs:75-80` appends `&num=` and the raw `MaxSearchResults`
  string whenever that string is non-empty. It is not checked for being a
  number, nor encoded.
- Of the crawlers, only `CrawlerService` checks that a client is selected.
  Of the calculators, only `RankCalculatorService` does.
  `GoogleCrawlerService` and `GoogleRankCalculator` have no such guard.
- A missing lookup pattern fails with the message "Lookup up regex not
  found!".

The directory-path test is a plain substring test on host plus path.
Because of this, a path `/blah` also accepts `/blahblah`. The model keeps
this behaviour and states it in
`RankCalculatorService.DirectoryPathIsPlainSubstring`.

## Model

| member | source | states |
|---|---|---|
| `Text.ContainsIff` | SearchRankChecker.Business/Services/RankCalculatorService.cs:63-65 | the recursive `Contains` used for `match.Contains(urlToMatch)` holds exactly when the target occurs at some position of the link (ordinal, case-sensitive; the empty string is contained everywhere) |
| `Text.NatToString` | SearchRankChecker.Business/Services/RankCalculatorService.cs:66 | `Convert.ToString(i + 1)` is a non-empty string of decimal digits |
| `Text.ParseNatToString` | SearchRankChecker.Business/Services/RankCalculatorService.cs:66 | reading a rendered rank back as decimal gives the rank, so different ranks render differently |
| `Text.NatToStringZero` | SearchRankChecker.Business/Services/RankCalculatorService.cs:69 | only zero renders as `"0"`, so no real rank can be mistaken for the "no match" answer |
| `Text.SplitJoin` | SearchRankChecker.Business/Services/RankCalculatorService.cs:69 | splitting an `AppendJoin(',', …)` of comma-free parts on `,` gives back exactly those parts |
| `Text.JoinAlphabet` | SearchRankChecker.Business/Services/GoogleRankCalculator.cs:51 | a joined string holds only characters of its parts and the separator |
| `Ranking.Ranks` | SearchRankChecker.Business/Services/RankCalculatorService.cs:61-67 | there are no more ranks than matches, and every rank lies in `1..matches.Count` |
| `Ranking.RanksMembership` | SearchRankChecker.Business/Services/RankCalculatorService.cs:61-67 | position `r` is reported if and only if `1 <= r <= matches.Count` and capture 2 of match `r - 1` contains the target |
| `Ranking.RanksIncreasing` | SearchRankChecker.Business/Services/RankCalculatorService.cs:61-67 | ranks come out strictly ascending, so without duplicates |
| `Ranking.RanksEmptyIff` | SearchRankChecker.Business/Services/RankCalculatorService.cs:61-69 | no rank is reported exactly when no capture contains the target, including when there are no matches at all |
| `Ranking.RankStringsAt` | SearchRankChecker.Business/Services/RankCalculatorService.cs:66 | entry `k` of `rankList` is the decimal string of the `k`-th rank, so the list keeps the ranks' order |
| `Ranking.RenderNotZero` | SearchRankChecker.Business/Services/RankCalculatorService.cs:69 | a non-empty list of positive ranks never joins to `"0"` |
| `Ranking.RenderRoundTrip` | SearchRankChecker.Business/Services/RankCalculatorService.cs:66-69 | the result string (`"0"`, or ranks joined by a single `,`) reads back as exactly the ranks it was made from |
| `Ranking.RenderAlphabet` | SearchRankChecker.Business/Services/RankCalculatorService.cs:69 | the result is never empty and holds only digits and commas (no spaces) |
| `Ranking.RankStringAscending` | SearchRankChecker.Business/Services/RankCalculatorService.cs:61-69 | the positions the result string reads back as come in strictly ascending order |
| `Ranking.RankStringMembership` | SearchRankChecker.Business/Services/RankCalculatorService.cs:52-69 | the result string reads back as exactly the positions `r` whose capture `r - 1` contains the target |
| `Ranking.RankStringZeroIff` | SearchRankChecker.Business/Services/RankCalculatorService.cs:61-69 | the result string is `"0"` exactly when no capture contains the target |
| `Ranking.SingleMatch` | SearchRankChecker.Tests/GoogleRankCalculatorTests.cs:29-41 | a single match on the host gives `"1"` |
| `Ranking.InterleavedMatches` | SearchRankChecker.Tests/RankCalculatorTests.cs:51-64 | numbering counts every match: a hit, a miss and a hit give `"1,3"` |
| `RankCalculatorService.GetUrlRanksFromSearchResults` | SearchRankChecker.Business/Services/RankCalculatorService.cs:32-70 | an empty selected client fails with "Default HttpClient should be set in the config" before the lookup pattern is consulted. An empty pattern under `HttpClientSettings:<client>:LookupRegex` fails with "Lookup up regex not found!". A pattern `Regex.Matches` rejects fails with its exception. Otherwise the loop's `rankList` joined by `,`, or `"0"`, equals the rendered `Ranks` of the captures for the host plus the directory path |
| `RankCalculatorService.MatchTargetMeaning` | SearchRankChecker.Business/Services/RankCalculatorService.cs:52-59 | `MatchTarget`, the string a link must contain, starts with the host, and what follows the host is exactly `SearchDefaults:DirectoryPath`: nothing when that setting is empty or absent |
| `RankCalculatorService.DirectoryPathIsPlainSubstring` | SearchRankChecker.Business/Services/RankCalculatorService.cs:54-65 | host and path are tested as one plain substring: any link that continues past the configured path (`/blah` inside `/blahblah`) counts |
| `RankCalculatorService.DirectoryPathRanks` | SearchRankChecker.Tests/RankCalculatorTests.cs:129-144 | with a directory path configured, of two links on the host only the one carrying the path counts, giving `"1"` |
| `RankCalculatorService.DirectoryPathSecondLink` | SearchRankChecker.Tests/RankCalculatorTests.cs:137-138 | the test's `/doh/blah` link does not contain host + `/blah/blah` |
| `RankCalculatorService.DirectoryPathTestPage` | SearchRankChecker.Tests/RankCalculatorTests.cs:129-144 | with `/blah/blah` configured, the test page's `/blah/blah` link ranks and its `/doh/blah` link does not, giving `"1"` |
| `GoogleRankCalculator.GetUrlRanksFromSearchResults` | SearchRankChecker.Business/Services/GoogleRankCalculator.cs:28-52 | an empty pattern under `HttpClients:GoogleClient:LookupRegex` fails with "Lookup up regex not found!", with no selected-client check. A pattern `Regex.Matches` rejects fails with its exception. Otherwise the loop's result equals the rendered `Ranks` of the captures for the host alone |
| `GoogleRankCalculator.TestPageMiss` | SearchRankChecker.Tests/GoogleRankCalculatorTests.cs:59-72 | the test page's `xyz.com.au` link does not contain the host |
| `GoogleRankCalculator.TestPageNoMatch` | SearchRankChecker.Tests/GoogleRankCalculatorTests.cs:59-72 | a page whose only link is on `www.xyz.com.au` ranks as `"0"` |
| `GoogleRankCalculator.TestPageRanks` | SearchRankChecker.Tests/GoogleRankCalculatorTests.cs:44-57 | the test page's links on the host, on `www.xyz.com.au` and on the host again rank as `"1,3"` |
| `Http.ReadResponse` | SearchRankChecker.Business/Services/CrawlerService.cs:50-59 | a 2xx status returns the body unchanged. Any other status is an `HttpRequestException` that keeps the status, whatever the body. A failed exchange propagates |
| `SearchQuery.ParseFormat` | SearchRankChecker.Business/Services/CrawlerService.cs:69-82 | a URI `search?q=<terms>[&num=<n>]` reads back as its terms and optional count when neither contains `&` |
| `CrawlerService.GetSelectedHttpClient` | SearchRankChecker.Business/Services/CrawlerService.cs:85-93 | succeeds exactly when `SelectedHttpClient` is non-empty and returns it. Otherwise it fails with "Default HttpClient should be set in the config" |
| `CrawlerService.ReadSetting` | SearchRankChecker.Business/Services/CrawlerService.cs:75 | a configuration read returns the value under the key, `""` when the key is absent, and appends the key to the log of keys read |
| `CrawlerService.BuildCrawlQuery` | SearchRankChecker.Business/Services/CrawlerService.cs:67-83 | with no selected client it fails and reads no configuration. Otherwise it reads `HttpClientSettings:<client>:MaxSearchResults` exactly once and returns `search?q=<encoded>`, plus `&num=` and the raw setting exactly when that setting is non-empty |
| `CrawlerService.CrawlQueryMeaning` | SearchRankChecker.Business/Services/CrawlerService.cs:69-82 | when neither the encoded terms nor the raw `MaxSearchResults` setting contains `&`, the built URI starts with `search?q=` immediately followed by the encoded terms. It parses back to those terms, and it has a `num` parameter, equal to the raw setting, exactly when `MaxSearchResults` is non-empty |
| `CrawlerService.GetSearchResults` | SearchRankChecker.Business/Services/CrawlerService.cs:38-60 | empty terms fail with "Search terms must be provided!", reading no configuration and sending nothing. An empty selected client fails the same way with its own message. Otherwise `MaxSearchResults` of the selected client is read exactly once, exactly one request, the built URI, is sent, and the outcome is `ReadResponse` of what came back |
| `GoogleCrawlerService.BuildCrawlQuery` | SearchRankChecker.Business/Services/GoogleCrawlerService.cs:51-57 | the Google URI is `search?q=` followed by the encoded terms and nothing else; it reads back as the encoded terms with no `num` parameter (`BuildCrawlQueryMeaning`) and equals the configuration-driven URI with `MaxSearchResults` unset (`BuildCrawlQueryIsUnlimited`) |
| `GoogleCrawlerService.BuildCrawlQueryMeaning` | SearchRankChecker.Business/Services/GoogleCrawlerService.cs:51-57 | the Google URI parses back to the encoded terms and no `num` parameter, whatever the configuration |
| `GoogleCrawlerService.BuildCrawlQueryIsUnlimited` | SearchRankChecker.Business/Services/GoogleCrawlerService.cs:53-56 | the Google URI equals the configuration-driven one with `MaxSearchResults` unset |
| `GoogleCrawlerService.GetSearchResults` | SearchRankChecker.Business/Services/GoogleCrawlerService.cs:25-44 | empty terms fail with "Search terms must be provided!" and send nothing. Otherwise exactly one request, the built URI, is sent, and its outcome is `ReadResponse` of what came back |

## Left out

- The regular expression engine (`Regex.Matches`): a foreign library, modelled as the parameter `regexMatches`. The model does not say which patterns parse or what they capture; it passes any exception on.
- A `null` page: `Regex.Matches` throws `ArgumentNullException` for it. A `null` URL: `url.Host` throws `NullReferenceException`. Strings in the model cannot be `null`, so neither failure is modelled.
- `Uri` parsing and `url.Host`: the host is an input string.
- `HttpUtility.UrlEncode`: a foreign call, modelled as the function parameter `urlEncode`. The parse lemmas (`CrawlerService.CrawlQueryMeaning`, `GoogleCrawlerService.BuildCrawlQueryMeaning`) assume its output holds no `&`, which `UrlEncode` guarantees by writing `&` as `%26`. `CrawlerService.CrawlQueryMeaning` also assumes the raw `MaxSearchResults` setting holds no `&`: that setting is appended unencoded, so a value such as `10&hl=en` adds a parameter of its own.
- HTTP transport, `IHttpClientFactory`, the named clients and their base addresses, `SendAsync`/`GetAsync`, cancellation tokens, timeouts and headers: network I/O and asynchrony, reduced to the `send` parameter.
- Which exception types are caught and rethrown (`WebException`, `HttpRequestException`, `SocketException`): the catch only logs and rethrows, so it changes no outcome. A non-success status is `HttpRequestException` with that status. An exchange that yields no response is `TransportFailure`, whatever its exception type, including those outside the catch filter (such as `TaskCanceledException` on a timeout), which propagate the same way.
- Logging calls, and culture or localisation settings.
- Case-insensitive configuration keys: `IConfiguration` matches keys without regard to case, while `Setting` looks a key up exactly. With a selected client `googleclient` and a section `HttpClientSettings:GoogleClient:…`, the source finds the settings and the model does not.
- 32-bit integer width: ranks are unbounded naturals. `i + 1` cannot overflow for any list of matches .NET can hold, and `Convert.ToString` of a positive `int` is culture-independent.
- The web front end (`HomeController`, `Startup`, view models, the `Search` domain model), the `TestCrawlerService` stub, and the interfaces: presentation, dependency wiring and declarations with no behaviour of the core.
