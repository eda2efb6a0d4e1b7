/**
 * The one HTTP exchange a crawler performs, reduced to its outcome: the
 * request either produced a response (a status code and a body) or failed
 * before one arrived. Transport, headers, timeouts and cancellation live
 * outside the model.
 */
module Http {
  import opened Settings

  datatype HttpResponse = HttpResponse(statusCode: int, body: string)

  datatype Exchange =
    | Completed(response: HttpResponse)
    | Failed

  /** HttpResponseMessage.IsSuccessStatusCode: a status in the 2xx range. */
  predicate IsSuccessStatusCode(statusCode: int)
  {
    200 <= statusCode <= 299
  }

  /**
   * EnsureSuccessStatusCode followed by ReadAsStringAsync: a success status
   * yields the body unchanged; any other status is an HttpRequestException
   * carrying that status, whatever the body; a failed exchange propagates.
   */
  function ReadResponse(exchange: Exchange): (result: Result<string>)
    ensures result.Ok? <==> exchange.Completed? && IsSuccessStatusCode(exchange.response.statusCode)
    ensures result.Ok? ==> result.value == exchange.response.body
    ensures (exchange.Completed? && !IsSuccessStatusCode(exchange.response.statusCode))
        ==> result == Err(HttpRequestException(exchange.response.statusCode))
    ensures exchange.Failed? ==> result == Err(TransportFailure)
  {
    match exchange
    case Failed => Err(TransportFailure)
    case Completed(response) =>
      if IsSuccessStatusCode(response.statusCode) then Ok(response.body)
      else Err(HttpRequestException(response.statusCode))
  }
}
