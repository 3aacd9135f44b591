/**
 * The values that cross the boundary to the HTTP client and the JSON
 * parser, which are not part of this model: the request the uploader
 * sends, and what comes back once the body has been parsed.
 */
module Http {
  import opened Wrappers
  import opened Strings

  /** `System.Net.Http.HttpMethod`, of which the uploader uses POST and DELETE. */
  datatype HttpMethod = Get | Post | Put | Delete

  /** `HttpMethod.ToString()`. */
  function MethodName(m: HttpMethod): Text
  {
    match m
    case Get => "GET"
    case Post => "POST"
    case Put => "PUT"
    case Delete => "DELETE"
  }

  /** The JSON body of a create request: tracking number, carrier and tracking link. */
  datatype TrackingRecord = TrackingRecord(trackingNumber: Text, customTrackingProvider: Text, customTrackingLink: Text)

  /** A request as dispatched: HTTP verb, final URL and optional JSON body. */
  datatype Request = Request(verb: HttpMethod, url: Text, body: Option<TrackingRecord>)

  /** An exception the uploader catches. */
  datatype Failure =
    | FormatException                    // from `String.Format`
    | ThrownByTransport(description: Text)  // from the HTTP client, the JSON parser or a conversion

  /**
   * The fields the uploader reads from a parsed, non-null JSON body; each
   * is `None` when absent or JSON null. `dateShipped` is in ticks.
   */
  datatype ResponseBody = ResponseBody(
    message: Option<Text>,
    code: Option<Text>,
    trackingId: Option<Text>,
    dateShipped: Option<nat>)

  /** What the transport yields for a request: an exception, or a status and a parsed body (`None` for JSON null). */
  datatype Reply =
    | Threw(failure: Failure)
    | Received(status: nat, body: Option<ResponseBody>)
}
