/**
 * The authentication query fragments the uploader appends to an endpoint
 * URL: consumer key and secret on the TLS path, the OAuth 1.0a parameters
 * with their signature otherwise; the nonce and the loop that renders a
 * parameter dictionary as `?k=v&k=v`.
 */
module Fragments {
  import opened Wrappers
  import opened Strings
  import opened UrlEncoding
  import opened Http
  import opened OAuth
  import opened Names

  // ---------------------------------------------------------------------
  // Query strings
  // ---------------------------------------------------------------------

  /** One `&{0}={1}` item: key and value through `SafeUpperCaseUrlEncode`. */
  function QueryPair(p: (Text, Option<Text>)): Text
  {
    SafeUpperCaseUrlEncode(Some(p.0)) + "=" + SafeUpperCaseUrlEncode(p.1)
  }

  function QueryPairs(ps: Params): (r: seq<Text>)
    ensures |r| == |ps| && forall i :: 0 <= i < |ps| ==> r[i] == QueryPair(ps[i])
  {
    seq(|ps|, i requires 0 <= i < |ps| => QueryPair(ps[i]))
  }

  /** The items joined by `&`. */
  function QueryString(ps: Params): Text
  {
    Join("&", QueryPairs(ps))
  }

  /** The query string of the entries from `i` on: the item at `i`, then `&` and the rest. */
  lemma {:induction false} QueryStringFrom(ps: Params, i: nat)
    requires i < |ps|
    ensures QueryString(ps[i..])
      == if i == |ps| - 1 then QueryPair(ps[i]) else QueryPair(ps[i]) + "&" + QueryString(ps[i + 1..])
  {
    var items := QueryPairs(ps[i..]);
    assert items[0] == QueryPair(ps[i]);
    if i < |ps| - 1 {
      assert items[1..] == QueryPairs(ps[i + 1..]);
    }
  }

  /** What the loop has appended after the first `i + 1` entries: each item preceded by `&`. */
  lemma {:induction false} AppendedItems(ps: Params, i: nat)
    requires i < |ps|
    ensures "&" + QueryString(ps[..i + 1])
      == (if i == 0 then [] else "&" + QueryString(ps[..i])) + "&" + QueryPair(ps[i])
  {
    var x := QueryPair(ps[i]);
    var q := QueryPairs(ps[..i]);
    QueryPairsTake(ps, i);
    if i == 0 {
      assert q + [x] == [x];
    } else {
      SeparatedJoinSnoc("&", q, x);
    }
  }

  /** Taking one entry more adds its item at the end. */
  lemma QueryPairsTake(ps: Params, i: nat)
    requires i < |ps|
    ensures QueryPairs(ps[..i + 1]) == QueryPairs(ps[..i]) + [QueryPair(ps[i])]
  {
    var l := QueryPairs(ps[..i + 1]);
    var r := QueryPairs(ps[..i]) + [QueryPair(ps[i])];
    assert |l| == |r|;
    forall k | 0 <= k < |l| ensures l[k] == r[k] {
      if k < i { assert ps[..i + 1][k] == ps[..i][k]; }
    }
  }

  /**
   * The `foreach` that appends `&key=value` per entry to a `StringBuilder`,
   * then `"?" + ToString().Substring(1)`.
   */
  method BuildQuery(ps: Params) returns (fragment: Text)
    requires |ps| > 0
    ensures fragment == "?" + QueryString(ps)
  {
    var sb: Text := [];
    for i := 0 to |ps|
      invariant sb == if i == 0 then [] else "&" + QueryString(ps[..i])
    {
      AppendedItems(ps, i);
      sb := sb + "&" + QueryPair(ps[i]);
    }
    assert ps[..|ps|] == ps;
    fragment := "?" + sb[1..];
  }

  /** `key=value` split at its first `=`. */
  function SplitPair(item: Text): (Text, Text)
  {
    if '=' in item then
      var i := IndexOf(item, '=');
      (item[..i], item[i + 1..])
    else (item, [])
  }

  /** A query string read back: items split at `&`, each at its first `=`. */
  function ParseQuery(query: Text): seq<(Text, Text)>
  {
    var items := Split(query, '&');
    seq(|items|, i requires 0 <= i < |items| => SplitPair(items[i]))
  }

  /** Each entry as it appears in the query string. */
  function EncodedPairs(ps: Params): (r: seq<(Text, Text)>)
    ensures |r| == |ps|
    ensures forall i :: 0 <= i < |ps| ==> r[i] == (SafeUpperCaseUrlEncode(Some(ps[i].0)), SafeUpperCaseUrlEncode(ps[i].1))
  {
    seq(|ps|, i requires 0 <= i < |ps| => (SafeUpperCaseUrlEncode(Some(ps[i].0)), SafeUpperCaseUrlEncode(ps[i].1)))
  }

  lemma SplitQueryPair(p: (Text, Option<Text>))
    ensures '&' !in QueryPair(p)
    ensures SplitPair(QueryPair(p)) == (SafeUpperCaseUrlEncode(Some(p.0)), SafeUpperCaseUrlEncode(p.1))
  {
    var k := SafeUpperCaseUrlEncode(Some(p.0));
    var v := SafeUpperCaseUrlEncode(p.1);
    SafeUpperCaseUrlEncodeIsEncoded(Some(p.0));
    SafeUpperCaseUrlEncodeIsEncoded(p.1);
    EncodedHasNoSeparators(k);
    EncodedHasNoSeparators(v);
    SplitAtEquals(k, v);
  }

  /** `key=value` with no `=` in the key splits back into the key and the value; neither `&` comes in. */
  lemma SplitAtEquals(k: Text, v: Text)
    requires '=' !in k
    ensures SplitPair(k + "=" + v) == (k, v)
    ensures '&' !in k && '&' !in v ==> '&' !in k + "=" + v
  {
    var item := k + "=" + v;
    assert item[|k|] == '=';
    assert item[..|k|] == k;
    assert IndexOf(item, '=') == |k|;
    assert item[|k| + 1..] == v;
  }

  /** The query string reads back as its encoded entries, in order: its keys and values are unambiguous. */
  lemma ParseQueryString(ps: Params)
    requires |ps| > 0
    ensures ParseQuery(QueryString(ps)) == EncodedPairs(ps)
  {
    var items := QueryPairs(ps);
    forall k | 0 <= k < |items| ensures '&' !in items[k] {
      SplitQueryPair(ps[k]);
    }
    SplitJoin(items, '&');
    forall k | 0 <= k < |ps| ensures ParseQuery(QueryString(ps))[k] == EncodedPairs(ps)[k] {
      SplitQueryPair(ps[k]);
    }
  }

  /** A query string holds no brace, so a later `String.Format` leaves it as it is. */
  lemma QueryStringHasNoBraces(ps: Params)
    ensures NoBraces(QueryString(ps))
  {
    var items := QueryPairs(ps);
    forall k | 0 <= k < |items| ensures NoBraces(items[k]) {
      var p := ps[k];
      SafeUpperCaseUrlEncodeIsEncoded(Some(p.0));
      SafeUpperCaseUrlEncodeIsEncoded(p.1);
      EncodedHasNoSeparators(SafeUpperCaseUrlEncode(Some(p.0)));
      EncodedHasNoSeparators(SafeUpperCaseUrlEncode(p.1));
    }
    JoinHasNoBraces("&", items);
  }

  lemma {:induction false} JoinHasNoBraces(sep: Text, xs: seq<Text>)
    requires NoBraces(sep) && forall k :: 0 <= k < |xs| ==> NoBraces(xs[k])
    ensures NoBraces(Join(sep, xs))
    decreases |xs|
  {
    if |xs| > 1 {
      JoinHasNoBraces(sep, xs[1..]);
      var r := Join(sep, xs);
      assert r == xs[0] + sep + Join(sep, xs[1..]);
      assert NoBraces(xs[0]);
      forall i | 0 <= i < |r| ensures r[i] != '{' && r[i] != '}' {
        if i < |xs[0]| { assert r[i] == xs[0][i]; }
        else if i < |xs[0]| + |sep| { assert r[i] == sep[i - |xs[0]|]; }
        else { assert r[i] == Join(sep, xs[1..])[i - |xs[0]| - |sep|]; }
      }
    }
  }

  // ---------------------------------------------------------------------
  // Parameter names and fixed values
  // ---------------------------------------------------------------------

  lemma SslNamesUrlSafe()
    ensures AllUrlSafe(ConsumerKeyParam) && AllUrlSafe(ConsumerSecretParam)
  {
  }

  lemma OAuthNamesUrlSafe()
    ensures AllUrlSafe(OAuthConsumerKeyParam) && AllUrlSafe(OAuthTimestampParam)
    ensures AllUrlSafe(OAuthNonceParam) && AllUrlSafe(OAuthSignatureMethodParam)
  {
  }

  lemma OAuthFixedTextsUrlSafe()
    ensures AllUrlSafe(OAuthVersionParam) && AllUrlSafe(OAuthSignatureParam)
    ensures AllUrlSafe(SignatureMethod) && AllUrlSafe(Version)
  {
  }

  /** Url-safe text passes through encoding and normalisation unchanged. */
  lemma UrlSafeUnaffected(s: Text)
    requires AllUrlSafe(s)
    ensures SafeUpperCaseUrlEncode(Some(s)) == s
    ensures NormalizeKey(s) == s && NormalizeValue(Some(s)) == s
  {
    SafeUpperCaseUrlEncodeOfUrlSafe(s);
    EscapeWithoutPercent(s);
  }

  lemma {:induction false} EscapeWithoutPercent(s: Text)
    requires '%' !in s
    ensures EscapePercent(s) == s
    decreases |s|
  {
    if |s| > 0 {
      EscapeWithoutPercent(s[1..]);
      assert [s[0]] + s[1..] == s;
    }
  }

  /** With url-safe keys, each key appears in its query item, and in the items read back, as it is. */
  lemma UrlSafeKeysEncodeUnchanged(ps: Params)
    requires forall i :: 0 <= i < |ps| ==> AllUrlSafe(ps[i].0)
    ensures forall i :: 0 <= i < |ps| ==> QueryPair(ps[i]) == ps[i].0 + "=" + SafeUpperCaseUrlEncode(ps[i].1)
    ensures forall i :: 0 <= i < |ps| ==> EncodedPairs(ps)[i] == (ps[i].0, SafeUpperCaseUrlEncode(ps[i].1))
  {
    forall i | 0 <= i < |ps|
      ensures QueryPair(ps[i]) == ps[i].0 + "=" + SafeUpperCaseUrlEncode(ps[i].1)
      ensures EncodedPairs(ps)[i] == (ps[i].0, SafeUpperCaseUrlEncode(ps[i].1))
    {
      UrlSafeUnaffected(ps[i].0);
    }
  }

  /** With url-safe keys, and wherever the value is url-safe too, normalisation changes nothing. */
  lemma UrlSafeNormalizeUnchanged(ps: Params)
    requires forall i :: 0 <= i < |ps| ==> AllUrlSafe(ps[i].0)
    ensures forall i :: 0 <= i < |ps| ==> NormalizedPairs(ps)[i].0 == ps[i].0
    ensures forall i :: 0 <= i < |ps| && ps[i].1.Some? && AllUrlSafe(ps[i].1.value) ==> NormalizedPairs(ps)[i].1 == ps[i].1.value
  {
    forall i | 0 <= i < |ps| ensures NormalizedPairs(ps)[i].0 == ps[i].0 {
      UrlSafeUnaffected(ps[i].0);
    }
    forall i | 0 <= i < |ps| && ps[i].1.Some? && AllUrlSafe(ps[i].1.value) ensures NormalizedPairs(ps)[i].1 == ps[i].1.value {
      UrlSafeUnaffected(ps[i].1.value);
    }
  }

  /** A url-safe value is its own encoded form. */
  lemma UrlSafeValuesEncodeUnchanged(ps: Params)
    ensures forall i :: 0 <= i < |ps| && ps[i].1.Some? && AllUrlSafe(ps[i].1.value) ==> SafeUpperCaseUrlEncode(ps[i].1) == ps[i].1.value
  {
    forall i | 0 <= i < |ps| && ps[i].1.Some? && AllUrlSafe(ps[i].1.value) ensures SafeUpperCaseUrlEncode(ps[i].1) == ps[i].1.value {
      UrlSafeUnaffected(ps[i].1.value);
    }
  }

  /** The query string of two entries. */
  lemma QueryStringOfTwo(ps: Params)
    requires |ps| == 2
    ensures QueryString(ps) == QueryPair(ps[0]) + "&" + QueryPair(ps[1])
  {
    QueryStringFrom(ps, 1);
    assert QueryString(ps[1..]) == QueryPair(ps[1]);
    QueryStringFrom(ps, 0);
    assert ps[0..] == ps;
  }

  /** The query string of six entries. */
  lemma QueryStringOfSix(ps: Params)
    requires |ps| == 6
    ensures QueryString(ps) == QueryPair(ps[0]) + "&" + (QueryPair(ps[1]) + "&" + (QueryPair(ps[2]) + "&"
      + (QueryPair(ps[3]) + "&" + (QueryPair(ps[4]) + "&" + QueryPair(ps[5])))))
  {
    QueryStringFrom(ps, 5);
    var r5 := QueryString(ps[5..]);
    assert r5 == QueryPair(ps[5]);
    QueryStringFrom(ps, 4);
    var r4 := QueryString(ps[4..]);
    assert r4 == QueryPair(ps[4]) + "&" + r5;
    QueryStringFrom(ps, 3);
    var r3 := QueryString(ps[3..]);
    assert r3 == QueryPair(ps[3]) + "&" + r4;
    QueryStringFrom(ps, 2);
    var r2 := QueryString(ps[2..]);
    assert r2 == QueryPair(ps[2]) + "&" + r3;
    QueryStringFrom(ps, 1);
    var r1 := QueryString(ps[1..]);
    assert r1 == QueryPair(ps[1]) + "&" + r2;
    QueryStringFrom(ps, 0);
    assert ps[0..] == ps;
  }

  // ---------------------------------------------------------------------
  // The TLS fragment
  // ---------------------------------------------------------------------

  /** The dictionary `GenerateSecurityFragmentsSSL` fills. */
  function SslParams(username: Option<Text>, secret: Option<Text>): Params
  {
    [(ConsumerKeyParam, username), (ConsumerSecretParam, secret)]
  }

  function SslFragment(username: Option<Text>, secret: Option<Text>): Text
  {
    "?" + QueryString(SslParams(username, secret))
  }

  /** The TLS fragment carries the two credentials, encoded, and nothing else. */
  lemma SslFragmentShape(username: Option<Text>, secret: Option<Text>)
    ensures SslFragment(username, secret)
      == "?" + (ConsumerKeyParam + "=" + SafeUpperCaseUrlEncode(username)
         + "&" + (ConsumerSecretParam + "=" + SafeUpperCaseUrlEncode(secret)))
  {
    var ps := SslParams(username, secret);
    SslNamesUrlSafe();
    UrlSafeKeysEncodeUnchanged(ps);
    QueryStringOfTwo(ps);
  }

  /** Read back, the TLS fragment is the two credentials under `consumer_key` and `consumer_secret`, in that order. */
  lemma SslFragmentReadBack(username: Option<Text>, secret: Option<Text>)
    ensures ParseQuery(SslFragment(username, secret)[1..])
      == [(ConsumerKeyParam, SafeUpperCaseUrlEncode(username)), (ConsumerSecretParam, SafeUpperCaseUrlEncode(secret))]
  {
    var ps := SslParams(username, secret);
    assert SslFragment(username, secret)[1..] == QueryString(ps);
    ParseQueryString(ps);
    SslEncodedPairs(username, secret);
  }

  lemma SslEncodedPairs(username: Option<Text>, secret: Option<Text>)
    ensures EncodedPairs(SslParams(username, secret))
      == [(ConsumerKeyParam, SafeUpperCaseUrlEncode(username)), (ConsumerSecretParam, SafeUpperCaseUrlEncode(secret))]
  {
    var ps := SslParams(username, secret);
    SslNamesUrlSafe();
    UrlSafeKeysEncodeUnchanged(ps);
  }

  // ---------------------------------------------------------------------
  // The OAuth fragment
  // ---------------------------------------------------------------------

  /** `Math.Round(...).ToString(InvariantCulture)` of the seconds since the epoch: decimal digits. */
  predicate IsTimestamp(t: Text)
  {
    |t| > 0 && forall i :: 0 <= i < |t| ==> '0' <= t[i] <= '9'
  }

  lemma TimestampUrlSafe(t: Text)
    requires IsTimestamp(t)
    ensures AllUrlSafe(t)
  {
  }

  /** The five parameters `GenerateSecurityUriFragments` inserts before it signs, in insertion order. */
  function OAuthParams(username: Option<Text>, timestamp: Text, nonce: Text): (ps: Params)
    ensures Keys(ps) == [OAuthConsumerKeyParam, OAuthTimestampParam, OAuthNonceParam, OAuthSignatureMethodParam, OAuthVersionParam]
  {
    [ (OAuthConsumerKeyParam, username),
      (OAuthTimestampParam, Some(timestamp)),
      (OAuthNonceParam, Some(nonce)),
      (OAuthSignatureMethodParam, Some(SignatureMethod)),
      (OAuthVersionParam, Some(Version)) ]
  }

  /** The signed parameters after normalisation, in insertion order: only the consumer key's value can change. */
  lemma OAuthParamsNormalized(username: Option<Text>, timestamp: Text, nonce: Text)
    requires IsTimestamp(timestamp) && AllUrlSafe(nonce)
    ensures NormalizedPairs(OAuthParams(username, timestamp, nonce)) ==
      [ (OAuthConsumerKeyParam, NormalizeValue(username)),
        (OAuthTimestampParam, timestamp),
        (OAuthNonceParam, nonce),
        (OAuthSignatureMethodParam, SignatureMethod),
        (OAuthVersionParam, Version) ]
  {
    var ps := OAuthParams(username, timestamp, nonce);
    OAuthNamesUrlSafe();
    OAuthFixedTextsUrlSafe();
    TimestampUrlSafe(timestamp);
    UrlSafeNormalizeUnchanged(ps);
  }

  lemma ConsumerKeyBeforeNonce()
    ensures Less(OAuthConsumerKeyParam, OAuthNonceParam)
  {
    LessAt(OAuthConsumerKeyParam, OAuthNonceParam, 6);
  }

  lemma NonceBeforeSignatureMethod()
    ensures Less(OAuthNonceParam, OAuthSignatureMethodParam)
  {
    LessAt(OAuthNonceParam, OAuthSignatureMethodParam, 6);
  }

  lemma SignatureMethodBeforeTimestamp()
    ensures Less(OAuthSignatureMethodParam, OAuthTimestampParam)
  {
    LessAt(OAuthSignatureMethodParam, OAuthTimestampParam, 6);
  }

  lemma TimestampBeforeVersion()
    ensures Less(OAuthTimestampParam, OAuthVersionParam)
  {
    LessAt(OAuthTimestampParam, OAuthVersionParam, 6);
  }

  /** The signed entries in the order the base string lists them. */
  function SortedOAuthPairs(username: Option<Text>, timestamp: Text, nonce: Text): Pairs
  {
    [ (OAuthConsumerKeyParam, NormalizeValue(username)),
      (OAuthNonceParam, nonce),
      (OAuthSignatureMethodParam, SignatureMethod),
      (OAuthTimestampParam, timestamp),
      (OAuthVersionParam, Version) ]
  }

  /** Five entries, each key less than the next, are strictly ascending as a whole. */
  lemma AscendingChain(k0: Text, k1: Text, k2: Text, k3: Text, k4: Text, v0: Text, v1: Text, v2: Text, v3: Text, v4: Text)
    requires Less(k0, k1) && Less(k1, k2) && Less(k2, k3) && Less(k3, k4)
    ensures StrictlyAscending([(k0, v0), (k1, v1), (k2, v2), (k3, v3), (k4, v4)])
  {
    LessTransitive(k0, k1, k2);
    LessTransitive(k0, k2, k3);
    LessTransitive(k0, k3, k4);
    LessTransitive(k1, k2, k3);
    LessTransitive(k1, k3, k4);
    LessTransitive(k2, k3, k4);
  }

  /** In ordinal order the signed names run: consumer key, nonce, signature method, timestamp, version. */
  lemma SortedOAuthPairsAscending(username: Option<Text>, timestamp: Text, nonce: Text)
    ensures StrictlyAscending(SortedOAuthPairs(username, timestamp, nonce))
  {
    ConsumerKeyBeforeNonce();
    NonceBeforeSignatureMethod();
    SignatureMethodBeforeTimestamp();
    TimestampBeforeVersion();
    AscendingChain(OAuthConsumerKeyParam, OAuthNonceParam, OAuthSignatureMethodParam, OAuthTimestampParam, OAuthVersionParam,
                   NormalizeValue(username), nonce, SignatureMethod, timestamp, Version);
  }

  /**
   * Entries listed as the signed parameters are inserted (the fourth of
   * the sorted order second) have distinct keys and sort back into order.
   */
  lemma SortInsertionOrder(ps: Pairs, sorted: Pairs)
    requires |sorted| == 5 && StrictlyAscending(sorted)
    requires ps == [sorted[0], sorted[3], sorted[1], sorted[2], sorted[4]]
    ensures Distinct(Keys(ps))
    ensures SortByKey(ps) == sorted
  {
    forall i | 0 <= i < 5 ensures !Less(sorted[i].0, sorted[i].0) {
      LessIrreflexive(sorted[i].0);
    }
    assert Distinct(Keys(ps));
    assert ps == [sorted[0]] + [sorted[3]] + [sorted[1]] + [sorted[2]] + [sorted[4]];
    assert sorted == [sorted[0]] + [sorted[1]] + [sorted[2]] + [sorted[3]] + [sorted[4]];
    assert multiset(ps) == multiset(sorted);
    SortByKeyOfAscending(ps, sorted);
  }

  /** The normalised keys are distinct, and sorting them gives consumer key, nonce, signature method, timestamp, version. */
  lemma OAuthParamsSorted(username: Option<Text>, timestamp: Text, nonce: Text)
    requires IsTimestamp(timestamp) && AllUrlSafe(nonce)
    ensures Distinct(Keys(NormalizedPairs(OAuthParams(username, timestamp, nonce))))
    ensures SortByKey(NormalizedPairs(OAuthParams(username, timestamp, nonce)))
      == SortedOAuthPairs(username, timestamp, nonce)
  {
    var sorted := SortedOAuthPairs(username, timestamp, nonce);
    OAuthParamsNormalized(username, timestamp, nonce);
    SortedOAuthPairsAscending(username, timestamp, nonce);
    SortInsertionOrder(NormalizedPairs(OAuthParams(username, timestamp, nonce)), sorted);
  }

  /** The signature of the five parameters: the keyed hash of the base string under `secret&`. */
  function OAuthSignature(secret: Option<Text>, httpMethod: HttpMethod, uri: Text,
                          username: Option<Text>, timestamp: Text, nonce: Text, mac: Mac): Text
    requires IsTimestamp(timestamp) && AllUrlSafe(nonce)
  {
    OAuthParamsSorted(username, timestamp, nonce);
    GenerateSignature(secret, httpMethod, OAuthParams(username, timestamp, nonce), uri, mac).value
  }

  /** The six parameters rendered into the fragment, in insertion order, with a given signature last. */
  function SignedParams(username: Option<Text>, timestamp: Text, nonce: Text, signature: Text): Params
  {
    OAuthParams(username, timestamp, nonce) + [(OAuthSignatureParam, Some(UpperCaseUrlEncode(Some(signature))))]
  }

  function SignedFragment(username: Option<Text>, timestamp: Text, nonce: Text, signature: Text): Text
  {
    "?" + QueryString(SignedParams(username, timestamp, nonce, signature))
  }

  /** The OAuth fragment: the five parameters and their signature. */
  function OAuthFragment(secret: Option<Text>, httpMethod: HttpMethod, uri: Text,
                         username: Option<Text>, timestamp: Text, nonce: Text, mac: Mac): Text
    requires IsTimestamp(timestamp) && AllUrlSafe(nonce)
  {
    SignedFragment(username, timestamp, nonce, OAuthSignature(secret, httpMethod, uri, username, timestamp, nonce, mac))
  }

  /** `Join` of the entries from `i` on: the entry at `i`, then the separator and the rest. */
  lemma {:induction false} JoinFrom(sep: Text, xs: seq<Text>, i: nat)
    requires i < |xs|
    ensures Join(sep, xs[i..]) == if i == |xs| - 1 then xs[i] else xs[i] + sep + Join(sep, xs[i + 1..])
  {
    if i < |xs| - 1 {
      assert xs[i..][1..] == xs[i + 1..];
    }
  }

  /** The signed parameters of five sorted entries. */
  lemma SignedParametersOfFive(k0: Text, k1: Text, k2: Text, k3: Text, k4: Text, v0: Text, v1: Text, v2: Text, v3: Text, v4: Text)
    ensures Join("%26", PairTexts([(k0, v0), (k1, v1), (k2, v2), (k3, v3), (k4, v4)]))
      == k0 + "%3D" + v0 + "%26" + (k1 + "%3D" + v1 + "%26" + (k2 + "%3D" + v2 + "%26"
         + (k3 + "%3D" + v3 + "%26" + (k4 + "%3D" + v4))))
  {
    var texts := PairTexts([(k0, v0), (k1, v1), (k2, v2), (k3, v3), (k4, v4)]);
    JoinFrom("%26", texts, 4);
    var r4 := Join("%26", texts[4..]);
    assert r4 == texts[4];
    JoinFrom("%26", texts, 3);
    var r3 := Join("%26", texts[3..]);
    assert r3 == texts[3] + "%26" + r4;
    JoinFrom("%26", texts, 2);
    var r2 := Join("%26", texts[2..]);
    assert r2 == texts[2] + "%26" + r3;
    JoinFrom("%26", texts, 1);
    var r1 := Join("%26", texts[1..]);
    assert r1 == texts[1] + "%26" + r2;
    JoinFrom("%26", texts, 0);
    assert texts[0..] == texts;
  }

  /** The signature base string spelled out: method, encoded URI, and the five entries in key order. */
  lemma OAuthBaseStringShape(httpMethod: HttpMethod, uri: Text, username: Option<Text>, timestamp: Text, nonce: Text)
    requires IsTimestamp(timestamp) && AllUrlSafe(nonce)
    ensures SignatureBaseString(httpMethod, uri, NormalizedPairs(OAuthParams(username, timestamp, nonce)))
      == ToUpperAscii(MethodName(httpMethod)) + "&" + SafeUpperCaseUrlEncode(Some(uri)) + "&"
         + (OAuthConsumerKeyParam + "%3D" + NormalizeValue(username) + "%26"
         + (OAuthNonceParam + "%3D" + nonce + "%26"
         + (OAuthSignatureMethodParam + "%3D" + SignatureMethod + "%26"
         + (OAuthTimestampParam + "%3D" + timestamp + "%26"
         + (OAuthVersionParam + "%3D" + Version)))))
  {
    OAuthParamsSorted(username, timestamp, nonce);
    SignedParametersOfFive(OAuthConsumerKeyParam, OAuthNonceParam, OAuthSignatureMethodParam, OAuthTimestampParam, OAuthVersionParam,
                           NormalizeValue(username), nonce, SignatureMethod, timestamp, Version);
  }

  /** The signature is the keyed hash, under `secret&`, of that base string. */
  lemma OAuthSignatureIsMacOfBaseString(secret: Option<Text>, httpMethod: HttpMethod, uri: Text,
                                        username: Option<Text>, timestamp: Text, nonce: Text, mac: Mac)
    requires IsTimestamp(timestamp) && AllUrlSafe(nonce)
    ensures OAuthSignature(secret, httpMethod, uri, username, timestamp, nonce, mac)
      == mac(SigningKey(secret), SignatureBaseString(httpMethod, uri, NormalizedPairs(OAuthParams(username, timestamp, nonce))))
  {
    OAuthParamsSorted(username, timestamp, nonce);
  }

  /** The OAuth fragment spelled out: six `key=value` items in insertion order, the signature encoded once and last. */
  lemma SignedFragmentShape(username: Option<Text>, timestamp: Text, nonce: Text, signature: Text)
    requires IsTimestamp(timestamp) && AllUrlSafe(nonce)
    ensures SignedFragment(username, timestamp, nonce, signature)
      == "?" + (OAuthConsumerKeyParam + "=" + SafeUpperCaseUrlEncode(username)
         + "&" + (OAuthTimestampParam + "=" + timestamp
         + "&" + (OAuthNonceParam + "=" + nonce
         + "&" + (OAuthSignatureMethodParam + "=" + SignatureMethod
         + "&" + (OAuthVersionParam + "=" + Version
         + "&" + (OAuthSignatureParam + "=" + UpperCaseUrlEncode(Some(signature))))))))
  {
    var ps := SignedParams(username, timestamp, nonce, signature);
    OAuthFixedTextsUrlSafe();
    TimestampUrlSafe(timestamp);
    SignedNamesUrlSafe(username, timestamp, nonce, signature);
    UrlSafeKeysEncodeUnchanged(ps);
    UrlSafeValuesEncodeUnchanged(ps);
    SafeUpperCaseUrlEncodeOfEncoded(signature);
    QueryStringOfSix(ps);
  }

  /**
   * Read back, the OAuth fragment's keys are the six OAuth names in
   * insertion order, and its last value decodes to the signature.
   */
  lemma SignedFragmentReadBack(username: Option<Text>, timestamp: Text, nonce: Text, signature: Text)
    ensures var parsed := ParseQuery(SignedFragment(username, timestamp, nonce, signature)[1..]);
      && Keys(parsed) == [OAuthConsumerKeyParam, OAuthTimestampParam, OAuthNonceParam, OAuthSignatureMethodParam, OAuthVersionParam, OAuthSignatureParam]
      && UrlDecode(parsed[5].1) == signature
  {
    var ps := SignedParams(username, timestamp, nonce, signature);
    assert SignedFragment(username, timestamp, nonce, signature)[1..] == QueryString(ps);
    ParseQueryString(ps);
    SignedKeysReadBack(username, timestamp, nonce, signature);
    SignatureReadBack(username, timestamp, nonce, signature);
  }

  lemma SignedKeysReadBack(username: Option<Text>, timestamp: Text, nonce: Text, signature: Text)
    ensures var ps := SignedParams(username, timestamp, nonce, signature);
      Keys(EncodedPairs(ps)) == [OAuthConsumerKeyParam, OAuthTimestampParam, OAuthNonceParam, OAuthSignatureMethodParam, OAuthVersionParam, OAuthSignatureParam]
  {
    var ps := SignedParams(username, timestamp, nonce, signature);
    SignedNamesUrlSafe(username, timestamp, nonce, signature);
    UrlSafeKeysEncodeUnchanged(ps);
  }

  lemma SignatureReadBack(username: Option<Text>, timestamp: Text, nonce: Text, signature: Text)
    ensures var ps := SignedParams(username, timestamp, nonce, signature);
      |EncodedPairs(ps)| == 6 && UrlDecode(EncodedPairs(ps)[5].1) == signature
  {
    var ps := SignedParams(username, timestamp, nonce, signature);
    assert ps[5] == (OAuthSignatureParam, Some(UpperCaseUrlEncode(Some(signature))));
    assert EncodedPairs(ps)[5].1 == SafeUpperCaseUrlEncode(Some(UpperCaseUrlEncode(Some(signature))));
    SafeUpperCaseUrlEncodeOfEncoded(signature);
    DecodeUpperCaseUrlEncode(signature);
  }

  /** `oauth_signature` is not among the signed names, so the signature does not cover itself. */
  lemma SignatureNotSigned(username: Option<Text>, timestamp: Text, nonce: Text)
    requires IsTimestamp(timestamp) && AllUrlSafe(nonce)
    ensures OAuthSignatureParam !in Keys(SortByKey(NormalizedPairs(OAuthParams(username, timestamp, nonce))))
  {
    OAuthParamsSorted(username, timestamp, nonce);
    SignatureNotAmongSorted(username, timestamp, nonce);
  }

  lemma SignatureNotAmongSorted(username: Option<Text>, timestamp: Text, nonce: Text)
    ensures OAuthSignatureParam !in Keys(SortedOAuthPairs(username, timestamp, nonce))
  {
    var ps := SortedOAuthPairs(username, timestamp, nonce);
    OAuthNamesDistinct();
    forall i | 0 <= i < |ps| ensures ps[i].0 != OAuthSignatureParam {
      if i == 0 {} else if i == 1 {} else if i == 2 {} else if i == 3 {}
    }
    NotAKey(OAuthSignatureParam, ps);
  }

  lemma NotAKey<V>(k: Text, ps: seq<(Text, V)>)
    requires forall i :: 0 <= i < |ps| ==> ps[i].0 != k
    ensures k !in Keys(ps)
  {
  }

  /** Every name in the OAuth fragment is url-safe. */
  lemma SignedNamesUrlSafe(username: Option<Text>, timestamp: Text, nonce: Text, signature: Text)
    ensures var ps := SignedParams(username, timestamp, nonce, signature);
      forall i :: 0 <= i < |ps| ==> AllUrlSafe(ps[i].0)
  {
    var ps := SignedParams(username, timestamp, nonce, signature);
    var head := OAuthParams(username, timestamp, nonce);
    assert ps[..5] == head;
    assert ps[5].0 == OAuthSignatureParam;
    OAuthNamesUrlSafe();
    OAuthFixedTextsUrlSafe();
    var ks := Keys(head);
    assert ps[0].0 == ks[0] == OAuthConsumerKeyParam;
    assert ps[1].0 == ks[1] == OAuthTimestampParam;
    assert ps[2].0 == ks[2] == OAuthNonceParam;
    assert ps[3].0 == ks[3] == OAuthSignatureMethodParam;
    assert ps[4].0 == ks[4] == OAuthVersionParam;
    forall i | 0 <= i < |ps| ensures AllUrlSafe(ps[i].0) {
      if i == 0 {} else if i == 1 {} else if i == 2 {} else if i == 3 {} else if i == 4 {}
    }
  }
}
