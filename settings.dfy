/**
 * The configuration both services read, and the errors they raise.
 *
 * IConfiguration is a read-only string lookup; a key that is absent reads
 * as null, which every caller treats like the empty string
 * (string.IsNullOrEmpty), so the model reads an absent key as "".
 * IConfiguration also matches keys without regard to case; the model
 * looks keys up exactly, so case-insensitive matching is not modelled.
 * AppSettings is the options object bound from configuration; only its
 * SelectedHttpClient member is consulted.
 */
module Settings {

  type Configuration = map<string, string>

  datatype AppSettings = AppSettings(selectedHttpClient: string)

  /** Configuration[key], with a missing key read as the empty string. */
  function Setting(config: Configuration, key: string): string
  {
    if key in config then config[key] else ""
  }

  /** "HttpClientSettings:{client}:LookupRegex" */
  function LookupRegexKey(client: string): string
  {
    "HttpClientSettings:" + client + ":LookupRegex"
  }

  /** "HttpClientSettings:{client}:MaxSearchResults" */
  function MaxSearchResultsKey(client: string): string
  {
    "HttpClientSettings:" + client + ":MaxSearchResults"
  }

  /** The key the hard-wired Google calculator reads its pattern from. */
  const GoogleLookupRegexKey: string := "HttpClients:GoogleClient:LookupRegex"

  const DirectoryPathKey: string := "SearchDefaults:DirectoryPath"

  // Messages of the ArgumentExceptions the services throw.
  const SearchTermsMissing: string := "Search terms must be provided!"
  const SelectedClientMissing: string := "Default HttpClient should be set in the config"
  const LookupRegexMissing: string := "Lookup up regex not found!"

  /**
   * The exceptions that leave the services. HttpRequestException carries
   * the status code EnsureSuccessStatusCode rejected; TransportFailure
   * stands for a request that never produced a response (socket, DNS or
   * web exceptions, rethrown unchanged).
   */
  datatype Error =
    | ArgumentException(message: string)
    | HttpRequestException(statusCode: int)
    | TransportFailure

  datatype Result<+T> = Ok(value: T) | Err(error: Error)
}
