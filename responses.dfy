/**
 * The `Response` struct and the two `BuildResponse` overloads that fill it,
 * one from an HTTP status and a parsed body, one from a caught exception.
 */
module Responses {
  import opened Wrappers
  import opened Strings
  import opened Http

  /** `HttpStatusCode.OK` and `HttpStatusCode.Created`. */
  const StatusOk: nat := 200
  const StatusCreated: nat := 201

  /**
   * The `Response` struct. `code` is the numeric `HttpStatusCode`;
   * `dateShipped` is a `DateTime` in ticks, so its default,
   * `DateTime.MinValue`, is 0.
   */
  datatype Response = Response(
    code: nat,
    message: Option<Text>,
    wooCommerceCode: Option<Text>,
    succeeded: bool,
    caughtException: Option<Failure>,
    trackingId: Option<Text>,
    dateShipped: nat)

  /** `new Response()`: every field at its default. */
  const DefaultResponse := Response(0, None, None, false, None, None, 0)

  /** How the uploader reports a reply: the contract both `BuildResponse` overloads and the operations keep. */
  predicate Reports(r: Response, reply: Reply)
  {
    match reply
    case Threw(e) =>
      r == DefaultResponse.(caughtException := Some(e))
    case Received(status, body) =>
      && r.code == status
      && (r.succeeded <==> status == StatusOk || status == StatusCreated)
      && r.caughtException.None?
      && r.message == (if body.Some? then body.value.message else None)
      && r.wooCommerceCode == (if body.Some? then body.value.code else None)
      && r.trackingId == (if body.Some? then body.value.trackingId else None)
      && r.dateShipped == (if body.Some? && body.value.dateShipped.Some? then body.value.dateShipped.value else 0)
  }

  /** `BuildResponse(Exception e)`: only the exception is set, and the call did not succeed. */
  method BuildFailureResponse(e: Failure) returns (r: Response)
    ensures Reports(r, Threw(e))
    ensures !r.succeeded && r.caughtException == Some(e)
  {
    r := DefaultResponse;
    r := r.(caughtException := Some(e));
    r := r.(succeeded := false);
  }

  /** `BuildResponse(dynamic response, HttpResponseMessage result)`. */
  method BuildResponse(body: Option<ResponseBody>, status: nat) returns (r: Response)
    ensures Reports(r, Received(status, body))
  {
    r := DefaultResponse;
    var code := status;
    r := r.(code := code);
    if code == StatusCreated || code == StatusOk {
      r := r.(succeeded := true);
    }
    if body.Some? {
      var response := body.value;
      if response.message.Some? {
        r := r.(message := response.message);
      }
      if response.code.Some? {
        r := r.(wooCommerceCode := response.code);
      }
      if response.trackingId.Some? {
        r := r.(trackingId := response.trackingId);
      }
      if response.dateShipped.Some? {
        r := r.(dateShipped := response.dateShipped.value);
      }
    }
  }

  /** A reply determines its report. */
  lemma ReportsIsFunctional(r1: Response, r2: Response, reply: Reply)
    requires Reports(r1, reply) && Reports(r2, reply)
    ensures r1 == r2
  {
  }

  /** Success depends on the status alone, never on the body. */
  lemma SucceededIgnoresBody(r1: Response, r2: Response, status: nat, b1: Option<ResponseBody>, b2: Option<ResponseBody>)
    requires Reports(r1, Received(status, b1)) && Reports(r2, Received(status, b2))
    ensures r1.succeeded == r2.succeeded && r1.code == r2.code
  {
  }

  /** Exactly one of a normal completion and a caught exception is reported; an exception never succeeds. */
  lemma ExceptionXorCompletion(r: Response, reply: Reply)
    requires Reports(r, reply)
    ensures r.caughtException.Some? <==> reply.Threw?
    ensures reply.Threw? ==> !r.succeeded && r.code == 0 && r.message.None? && r.trackingId.None?
  {
  }

  /** A created tracking record: the store's identifier is reported with success. */
  lemma CreatedReportsTrackingId(r: Response)
    requires Reports(r, Received(201, Some(ResponseBody(Some("ok"), Some("wc_ok"), Some("abc123"), Some(638396640000000000)))))
    ensures r.succeeded && r.trackingId == Some("abc123") && r.wooCommerceCode == Some("wc_ok")
  {
  }
}
