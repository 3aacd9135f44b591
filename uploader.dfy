/**
 * `WCTrackingUploader`: the store credentials and URL it keeps, the
 * authentication fragment it appends to an endpoint URL, and the two
 * operations that send a request and report what came back. The HTTP
 * client together with the JSON parser is the parameter `send`; the clock
 * is `timestamp`, `System.Random` is `draws`, HMAC-SHA1 with Base64 is
 * `mac`.
 */
module Uploader {
  import opened Wrappers
  import opened Strings
  import opened UrlEncoding
  import opened Formatting
  import opened Endpoints
  import opened Http
  import opened OAuth
  import opened Responses
  import opened Names
  import opened Nonce
  import opened Fragments

  /** `PostAsJsonAsync` or `DeleteAsync`, then `.Result` and `DeserializeObject`. */
  type Transport = Request -> Reply

  /**
   * The endpoint URL `SubmitTrackingInfo` formats, or the format error.
   * A brace-free store URL always formats, to the create URL, whatever
   * the order reference.
   */
  function FormatCreateUrl(storeUrl: Text, storeReferenceId: Text): (r: Result<Text, FormatError>)
    ensures NoBraces(storeUrl) ==> r == Ok(CreateUrl(storeUrl, storeReferenceId))
  {
    if NoBraces(storeUrl) then
      FormatCreateTemplate(storeUrl, [storeReferenceId]);
      Format(storeUrl + CreateShipmentTrackingEndpoint, [storeReferenceId])
    else Format(storeUrl + CreateShipmentTrackingEndpoint, [storeReferenceId])
  }

  /**
   * The endpoint URL `DeleteTrackingInfo` formats: the create template
   * with one argument more. For a brace-free store URL this is the
   * create URL of the order: the tracking identifier is never part of it.
   */
  function FormatDeleteUrl(storeUrl: Text, storeReferenceId: Text, trackingId: Text): (r: Result<Text, FormatError>)
    ensures NoBraces(storeUrl) ==> r == Ok(CreateUrl(storeUrl, storeReferenceId))
  {
    if NoBraces(storeUrl) then
      FormatCreateTemplate(storeUrl, [storeReferenceId, trackingId]);
      Format(storeUrl + CreateShipmentTrackingEndpoint, [storeReferenceId, trackingId])
    else Format(storeUrl + CreateShipmentTrackingEndpoint, [storeReferenceId, trackingId])
  }

  /**
   * The fragment for an endpoint URL: consumer key and secret when it
   * contains `https://`, OAuth otherwise. Either is a query string
   * without braces.
   */
  function AuthFragment(username: Option<Text>, secret: Option<Text>, url: Text, verb: HttpMethod,
                        timestamp: Text, nonce: Text, mac: Mac): (r: Text)
    requires IsTimestamp(timestamp) && AllUrlSafe(nonce)
    ensures |r| > 0 && r[0] == '?' && NoBraces(r)
  {
    if UsesConsumerKeyAuth(url) then
      QueryStringHasNoBraces(SslParams(username, secret));
      NoBracesConcat("?", QueryString(SslParams(username, secret)));
      SslFragment(username, secret)
    else
      var signature := OAuthSignature(secret, verb, url, username, timestamp, nonce, mac);
      QueryStringHasNoBraces(SignedParams(username, timestamp, nonce, signature));
      NoBracesConcat("?", QueryString(SignedParams(username, timestamp, nonce, signature)));
      OAuthFragment(secret, verb, url, username, timestamp, nonce, mac)
  }

  class WCTrackingUploader {
    var secret: Option<Text>
    var storeUrl: Text
    var username: Option<Text>

    /** `WCTrackingUploader(secret, username, storeUrl)`: the fields as `ChangeClient` sets them. */
    constructor (secret: Option<Text>, username: Option<Text>, storeUrl: Text)
      ensures this.secret == secret && this.username == username
      ensures this.storeUrl == NormalizeStoreUrl(storeUrl)
    {
      new;
      ChangeClient(secret, username, storeUrl);
    }

    /** `ChangeClient`: the credentials as given, the store URL without one trailing `/`. */
    method ChangeClient(secret: Option<Text>, username: Option<Text>, storeUrl: Text)
      modifies this
      ensures this.secret == secret && this.username == username
      ensures this.storeUrl == NormalizeStoreUrl(storeUrl)
    {
      var url := storeUrl;
      if EndsWith(url, '/') {
        url := url[..|url| - 1];
      }
      this.secret := secret;
      this.storeUrl := url;
      this.username := username;
    }

    /** `GenerateSecurityFragmentsSSL`: method and endpoint are not used. */
    method GenerateSecurityFragmentsSSL(httpMethod: HttpMethod, apiEndpoint: Text) returns (fragment: Text)
      ensures fragment == SslFragment(username, secret)
    {
      SslParamsByPut(username, secret);
      var parameters: Params := [];
      parameters := OAuth.Put(parameters, ConsumerKeyParam, username);
      parameters := OAuth.Put(parameters, ConsumerSecretParam, secret);
      fragment := BuildQuery(parameters);
    }

    /** `GenerateSecurityUriFragments`: five parameters, their signature, and the fragment of all six. */
    method GenerateSecurityUriFragments(completeUri: Text, httpMethod: HttpMethod,
                                        timestamp: Text, draws: seq<nat>, mac: Mac) returns (fragment: Text)
      requires IsTimestamp(timestamp) && ValidDraws(draws)
      ensures fragment == OAuthFragment(secret, httpMethod, completeUri, username, timestamp, NonceOf(draws), mac)
    {
      var parameters: Params := [];
      parameters := OAuth.Put(parameters, OAuthConsumerKeyParam, username);
      parameters := OAuth.Put(parameters, OAuthTimestampParam, Some(timestamp));
      var nonce := GenerateNonce(draws);
      parameters := OAuth.Put(parameters, OAuthNonceParam, Some(nonce));
      parameters := OAuth.Put(parameters, OAuthSignatureMethodParam, Some(SignatureMethod));
      parameters := OAuth.Put(parameters, OAuthVersionParam, Some(Version));
      OAuthParamsByPut(username, timestamp, nonce);
      OAuthParamsSorted(username, timestamp, nonce);
      var signature := GenerateSignature(secret, httpMethod, parameters, completeUri, mac).value;
      SignatureByPut(username, timestamp, nonce, signature);
      parameters := OAuth.Put(parameters, OAuthSignatureParam, Some(UpperCaseUrlEncode(Some(signature))));
      fragment := BuildQuery(parameters);
    }

    /** The branch of `SubmitTrackingInfo` and `DeleteTrackingInfo` that picks the fragment for a URL. */
    method SecurityFragments(url: Text, verb: HttpMethod, timestamp: Text, draws: seq<nat>, mac: Mac)
      returns (fragment: Text)
      requires IsTimestamp(timestamp) && ValidDraws(draws)
      ensures fragment == AuthFragment(username, secret, url, verb, timestamp, NonceOf(draws), mac)
    {
      if Contains(url, HttpsScheme) {
        fragment := GenerateSecurityFragmentsSSL(verb, url);
      } else {
        fragment := GenerateSecurityUriFragments(url, verb, timestamp, draws, mac);
      }
    }

    /**
     * `SubmitTrackingInfo`: a POST of the tracking record to the create
     * URL with its fragment, or the `FormatException` a brace in the
     * store URL or the order reference can raise. The `lastUpdated`
     * argument is never read.
     */
    method SubmitTrackingInfo(trackingId: Text, trackingUrl: Text, carrier: Text, storeReferenceId: Text,
                              timestamp: Text, draws: seq<nat>, mac: Mac, send: Transport)
      returns (request: Option<Request>, response: Response)
      requires IsTimestamp(timestamp) && ValidDraws(draws)
      ensures var formatted := FormatCreateUrl(storeUrl, storeReferenceId);
        && (formatted.Err? ==> request.None? && Reports(response, Threw(Failure.FormatException)))
        && (formatted.Ok? ==>
              && request == Some(Request(Post,
                                         formatted.value + AuthFragment(username, secret, formatted.value, Post, timestamp, NonceOf(draws), mac),
                                         Some(TrackingRecord(trackingId, carrier, trackingUrl))))
              && Reports(response, send(request.value)))
    {
      var container := TrackingRecord(trackingId, carrier, trackingUrl);
      var formattedBaseUrl := FormatCreateUrl(storeUrl, storeReferenceId);
      if formattedBaseUrl.Err? {
        request := None;
        response := BuildFailureResponse(Failure.FormatException);
        return;
      }
      var securityFragments := SecurityFragments(formattedBaseUrl.value, Post, timestamp, draws, mac);
      var finalUrl := formattedBaseUrl.value + securityFragments;
      request := Some(Request(Post, finalUrl, Some(container)));
      response := Dispatch(request.value, send);
    }

    /**
     * `DeleteTrackingInfo`: the create URL, signed as a POST, formatted
     * once more without arguments and sent as a DELETE without body. The
     * `orderId` argument is never read.
     */
    method DeleteTrackingInfo(trackingId: Text, orderId: int, storeReferenceId: Text,
                              timestamp: Text, draws: seq<nat>, mac: Mac, send: Transport)
      returns (request: Option<Request>, response: Response)
      requires IsTimestamp(timestamp) && ValidDraws(draws)
      ensures var formatted := FormatDeleteUrl(storeUrl, storeReferenceId, trackingId);
        && (formatted.Err? ==> request.None? && Reports(response, Threw(Failure.FormatException)))
        && (formatted.Ok? ==>
              var final := Format(formatted.value + AuthFragment(username, secret, formatted.value, Post, timestamp, NonceOf(draws), mac), []);
              && (final.Err? ==> request.None? && Reports(response, Threw(Failure.FormatException)))
              && (final.Ok? ==> request == Some(Request(Delete, final.value, None)) && Reports(response, send(request.value))))
    {
      var formattedBaseUrl := FormatDeleteUrl(storeUrl, storeReferenceId, trackingId);
      if formattedBaseUrl.Err? {
        request := None;
        response := BuildFailureResponse(Failure.FormatException);
        return;
      }
      var securityFragments := SecurityFragments(formattedBaseUrl.value, Post, timestamp, draws, mac);
      var finalUrl := formattedBaseUrl.value + securityFragments;
      var url := Format(finalUrl, []);
      if url.Err? {
        request := None;
        response := BuildFailureResponse(Failure.FormatException);
        return;
      }
      request := Some(Request(Delete, url.value, None));
      response := Dispatch(request.value, send);
    }
  }

  /** Send a request and build the response from the reply, or from the exception it threw. */
  method Dispatch(request: Request, send: Transport) returns (response: Response)
    ensures Reports(response, send(request))
  {
    var reply := send(request);
    match reply
    case Threw(e) =>
      response := BuildFailureResponse(e);
    case Received(status, body) =>
      response := BuildResponse(body, status);
  }

  // ---------------------------------------------------------------------
  // Endpoint URLs and the second format of the delete path
  // ---------------------------------------------------------------------

  lemma CreateUrlHasNoBraces(storeUrl: Text, storeReferenceId: Text)
    requires NoBraces(storeUrl) && NoBraces(storeReferenceId)
    ensures NoBraces(CreateUrl(storeUrl, storeReferenceId))
  {
    PathsHaveNoBraces();
    NoBracesConcat(storeUrl, OrdersPath);
    NoBracesConcat(storeUrl + OrdersPath, storeReferenceId);
    NoBracesConcat(storeUrl + OrdersPath + storeReferenceId, TrackingsPath);
  }

  /**
   * With a brace-free store URL and order reference, the second format of
   * the delete path keeps the signed create URL as it is.
   */
  lemma DeleteFormatKeepsUrl(storeUrl: Text, storeReferenceId: Text, username: Option<Text>, secret: Option<Text>,
                             timestamp: Text, nonce: Text, mac: Mac)
    requires NoBraces(storeUrl) && NoBraces(storeReferenceId)
    requires IsTimestamp(timestamp) && AllUrlSafe(nonce)
    ensures var url := CreateUrl(storeUrl, storeReferenceId);
      var finalUrl := url + AuthFragment(username, secret, url, Post, timestamp, nonce, mac);
      Format(finalUrl, []) == Ok(finalUrl)
  {
    var url := CreateUrl(storeUrl, storeReferenceId);
    CreateUrlHasNoBraces(storeUrl, storeReferenceId);
    NoBracesConcat(url, AuthFragment(username, secret, url, Post, timestamp, nonce, mac));
    FormatBraceFree(url + AuthFragment(username, secret, url, Post, timestamp, nonce, mac), []);
  }

  /**
   * An order reference such as `{0}` passes the first format, which has
   * arguments, but fails the second, which has none: the delete path
   * reports a `FormatException` and sends nothing.
   */
  lemma DeleteFormatFailsOnFormatItem(storeUrl: Text, fragment: Text)
    requires NoBraces(storeUrl)
    ensures Format(CreateUrl(storeUrl, "{0}") + fragment, []).Err?
  {
    var head := storeUrl + OrdersPath;
    var item: Text := ['{', '0', '}'];
    var rest := TrackingsPath + fragment;
    assert CreateUrl(storeUrl, "{0}") + fragment == head + (item + rest);
    PathsHaveNoBraces();
    NoBracesConcat(storeUrl, OrdersPath);
    FormatBraceFreePrefix(head, item + rest, []);
    assert (item + rest)[0] == '{' && (item + rest)[1] == '0' && (item + rest)[2] == '}';
  }

  /**
   * A `{` after brace-free text in the store URL, followed by neither a
   * digit nor a second `{`, cannot begin a format item: both operations
   * fail before anything is sent. The store URL `http://{shop}` is one such.
   */
  lemma BraceInStoreUrlFails(p: Text, c: Octet, q: Text, storeReferenceId: Text, trackingId: Text)
    requires NoBraces(p) && c != '{' && !IsDigit(c)
    ensures FormatCreateUrl(p + ['{', c] + q, storeReferenceId).Err?
    ensures FormatDeleteUrl(p + ['{', c] + q, storeReferenceId, trackingId).Err?
  {
    var rest := q + CreateShipmentTrackingEndpoint;
    assert p + ['{', c] + q + CreateShipmentTrackingEndpoint == p + ['{', c] + rest;
    LoneBraceFails(p, c, rest, [storeReferenceId]);
    LoneBraceFails(p, c, rest, [storeReferenceId, trackingId]);
  }

  /**
   * A store URL that ends in the format item `{0}`, with any spaces after
   * the index, is formatted too: the order reference appears in the store
   * part of the URL as well as in the orders path.
   */
  lemma StoreUrlFormatItem(p: Text, k: nat, storeReferenceId: Text, trackingId: Text)
    requires NoBraces(p)
    ensures FormatCreateUrl(p + ['{', '0'] + Spaces(k) + ['}'], storeReferenceId)
      == Ok(p + storeReferenceId + OrdersPath + storeReferenceId + TrackingsPath)
    ensures FormatDeleteUrl(p + ['{', '0'] + Spaces(k) + ['}'], storeReferenceId, trackingId)
      == Ok(p + storeReferenceId + OrdersPath + storeReferenceId + TrackingsPath)
  {
    var url := p + storeReferenceId + OrdersPath + storeReferenceId + TrackingsPath;
    StoreUrlItemFormats(p, k, [storeReferenceId]);
    StoreUrlItemFormats(p, k, [storeReferenceId, trackingId]);
    assert p + storeReferenceId + ([] + OrdersPath + storeReferenceId + TrackingsPath) == url;
  }

  lemma StoreUrlItemFormats(p: Text, k: nat, args: seq<Text>)
    requires NoBraces(p) && |args| >= 1
    ensures Format(p + ['{', '0'] + Spaces(k) + ['}'] + CreateShipmentTrackingEndpoint, args)
      == Prepend(p + args[0], Ok([] + OrdersPath + args[0] + TrackingsPath))
  {
    FormatPrefixItem(p, k, CreateShipmentTrackingEndpoint, args);
    FormatCreateTemplate([], args);
    assert [] + CreateShipmentTrackingEndpoint == CreateShipmentTrackingEndpoint;
  }

  /** Brace-free text, then the item `{0}` with `k` spaces after the index, then the rest. */
  lemma FormatPrefixItem(p: Text, k: nat, t: Text, args: seq<Text>)
    requires NoBraces(p) && |args| >= 1
    ensures Format(p + ['{', '0'] + Spaces(k) + ['}'] + t, args) == Prepend(p + args[0], Format(t, args))
  {
    var item: Text := ['{', '0'] + Spaces(k) + ['}'];
    assert p + ['{', '0'] + Spaces(k) + ['}'] + t == p + (item + t);
    FormatBraceFreePrefix(p, item + t, args);
    FormatItem('0', k, t, args);
    if Format(t, args).Ok? {
      assert p + (args[0] + Format(t, args).value) == p + args[0] + Format(t, args).value;
    }
  }

  // ---------------------------------------------------------------------
  // Parameter names are distinct, so each indexer assignment adds an entry
  // ---------------------------------------------------------------------

  /** The two indexer assignments of `GenerateSecurityFragmentsSSL` build the TLS parameters. */
  lemma SslParamsByPut(username: Option<Text>, secret: Option<Text>)
    ensures OAuth.Put(OAuth.Put([], ConsumerKeyParam, username), ConsumerSecretParam, secret) == SslParams(username, secret)
  {
    var p1 := OAuth.Put([], ConsumerKeyParam, username);
    PutNewKey([], ConsumerKeyParam, username);
    assert Keys(p1) == [ConsumerKeyParam];
    assert ConsumerKeyParam[9] == 'k' && ConsumerSecretParam[9] == 's';
    PutNewKey(p1, ConsumerSecretParam, secret);
  }

  /** The five indexer assignments of `GenerateSecurityUriFragments` before the signature. */
  lemma OAuthParamsByPut(username: Option<Text>, timestamp: Text, nonce: Text)
    ensures OAuth.Put(OAuth.Put(OAuth.Put(OAuth.Put(OAuth.Put([], OAuthConsumerKeyParam, username),
              OAuthTimestampParam, Some(timestamp)), OAuthNonceParam, Some(nonce)),
              OAuthSignatureMethodParam, Some(SignatureMethod)), OAuthVersionParam, Some(Version))
      == OAuthParams(username, timestamp, nonce)
  {
    var p3 := OAuth.Put(OAuth.Put(OAuth.Put([], OAuthConsumerKeyParam, username),
              OAuthTimestampParam, Some(timestamp)), OAuthNonceParam, Some(nonce));
    FirstThreeByPut(username, timestamp, nonce);
    OAuthNamesDistinct();
    var p4 := OAuth.Put(p3, OAuthSignatureMethodParam, Some(SignatureMethod));
    PutNewKey(p3, OAuthSignatureMethodParam, Some(SignatureMethod));
    assert Keys(p4) == [OAuthConsumerKeyParam, OAuthTimestampParam, OAuthNonceParam, OAuthSignatureMethodParam];
    PutNewKey(p4, OAuthVersionParam, Some(Version));
  }

  lemma FirstThreeByPut(username: Option<Text>, timestamp: Text, nonce: Text)
    ensures var p3 := OAuth.Put(OAuth.Put(OAuth.Put([], OAuthConsumerKeyParam, username),
              OAuthTimestampParam, Some(timestamp)), OAuthNonceParam, Some(nonce));
      && p3 == [(OAuthConsumerKeyParam, username), (OAuthTimestampParam, Some(timestamp)), (OAuthNonceParam, Some(nonce))]
      && Keys(p3) == [OAuthConsumerKeyParam, OAuthTimestampParam, OAuthNonceParam]
  {
    OAuthNamesDistinct();
    var p1 := OAuth.Put([], OAuthConsumerKeyParam, username);
    PutNewKey([], OAuthConsumerKeyParam, username);
    assert Keys(p1) == [OAuthConsumerKeyParam];
    var p2 := OAuth.Put(p1, OAuthTimestampParam, Some(timestamp));
    PutNewKey(p1, OAuthTimestampParam, Some(timestamp));
    assert Keys(p2) == [OAuthConsumerKeyParam, OAuthTimestampParam];
    PutNewKey(p2, OAuthNonceParam, Some(nonce));
  }

  /** The signature goes last, after the five signed parameters. */
  lemma SignatureByPut(username: Option<Text>, timestamp: Text, nonce: Text, signature: Text)
    ensures OAuth.Put(OAuthParams(username, timestamp, nonce), OAuthSignatureParam, Some(UpperCaseUrlEncode(Some(signature))))
      == SignedParams(username, timestamp, nonce, signature)
  {
    OAuthNamesDistinct();
    PutNewKey(OAuthParams(username, timestamp, nonce), OAuthSignatureParam, Some(UpperCaseUrlEncode(Some(signature))));
  }
}
