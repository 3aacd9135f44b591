/**
 * Store URL normalisation and endpoint assembly: the store URL loses one
 * trailing `/`, and endpoint URLs are formatted from the store URL
 * followed by a path template. Both the create and the delete operation
 * format the create template; the delete operation passes the tracking
 * identifier as a second argument that the template never refers to.
 */
module Endpoints {
  import opened Wrappers
  import opened Strings
  import opened Formatting

  const OrdersPath: Text := "/wp-json/wc/v1/orders/"
  const TrackingsPath: Text := "/shipment-trackings"

  /** `_createShipmentTrackingEndpoint`. */
  const CreateShipmentTrackingEndpoint: Text := OrdersPath + "{0}" + TrackingsPath

  /** `_deleteShipmentTrackingEndpoint`, which no operation uses. */
  const DeleteShipmentTrackingEndpoint: Text := OrdersPath + "{0}" + TrackingsPath + "/{1}"

  const HttpsScheme: Text := "https://"

  /** The store URL as `ChangeClient` keeps it: one trailing `/` removed. */
  function NormalizeStoreUrl(url: Text): (r: Text)
    ensures |url| - 1 <= |r| <= |url|
    ensures r == url[..|r|]
    ensures r == url <==> !EndsWith(url, '/')
  {
    if EndsWith(url, '/') then url[..|url| - 1] else url
  }

  /** A store URL given with a trailing `/` is kept as the same URL given without it. */
  lemma NormalizeStoreUrlTrailingSlash(url: Text)
    requires !EndsWith(url, '/')
    ensures NormalizeStoreUrl(url + "/") == NormalizeStoreUrl(url) == url
  {
    assert (url + "/")[..|url|] == url;
  }

  /** Only one slash is removed. */
  lemma NormalizeStoreUrlRemovesOneSlash()
    ensures NormalizeStoreUrl("x//") == "x/"
  {
    assert "x//"[..2] == "x/";
  }

  lemma {:induction false} NoBracesConcat(a: Text, b: Text)
    requires NoBraces(a) && NoBraces(b)
    ensures NoBraces(a + b)
  {
    var r := a + b;
    forall i | 0 <= i < |r| ensures r[i] != '{' && r[i] != '}' {
      if i < |a| { assert r[i] == a[i]; } else { assert r[i] == b[i - |a|]; }
    }
  }

  lemma PathsHaveNoBraces()
    ensures NoBraces(OrdersPath) && NoBraces(TrackingsPath) && NoBraces(TrackingsPath + "/")
  {
  }

  /** A `{d}` item without spaces: the case the templates use. */
  lemma FormatPlainItem(c: Octet, rest: Text, args: seq<Text>)
    requires IsDigit(c) && DigitValue(c) < |args|
    ensures Format(['{', c, '}'] + rest, args) == Prepend(args[DigitValue(c)], Format(rest, args))
  {
    var fmt: Text := ['{', c, '}'] + rest;
    ParseSpacedItem(fmt[1..], 0);
    FormatItemAtHead(fmt, args);
    assert Align(args[DigitValue(c)], false, 0) == args[DigitValue(c)] by {
      assert Spaces(0) + args[DigitValue(c)] == args[DigitValue(c)];
    }
    assert fmt[1 + 2..] == rest;
  }

  lemma FormatCreateTemplateSteps(storeUrl: Text, args: seq<Text>)
    requires NoBraces(storeUrl) && |args| >= 1
    ensures Format(storeUrl + CreateShipmentTrackingEndpoint, args)
      == Prepend(storeUrl + OrdersPath, Ok(args[0] + TrackingsPath))
  {
    var head := storeUrl + OrdersPath;
    var item: Text := ['{', '0', '}'];
    var fmt := storeUrl + CreateShipmentTrackingEndpoint;
    assert Format(fmt, args) == Format(head + (item + TrackingsPath), args) by {
      assert fmt == head + (item + TrackingsPath);
    }
    assert Format(head + (item + TrackingsPath), args) == Prepend(head, Format(item + TrackingsPath, args)) by {
      PathsHaveNoBraces();
      NoBracesConcat(storeUrl, OrdersPath);
      FormatBraceFreePrefix(head, item + TrackingsPath, args);
    }
    assert Format(item + TrackingsPath, args) == Ok(args[0] + TrackingsPath) by {
      PathsHaveNoBraces();
      FormatPlainItem('0', TrackingsPath, args);
      FormatBraceFree(TrackingsPath, args);
    }
  }

  /** Formatting the create template with the arguments given. */
  lemma FormatCreateTemplate(storeUrl: Text, args: seq<Text>)
    requires NoBraces(storeUrl) && |args| >= 1
    ensures Format(storeUrl + CreateShipmentTrackingEndpoint, args)
      == Ok(storeUrl + OrdersPath + args[0] + TrackingsPath)
  {
    FormatCreateTemplateSteps(storeUrl, args);
    assert (storeUrl + OrdersPath) + (args[0] + TrackingsPath) == storeUrl + OrdersPath + args[0] + TrackingsPath;
  }

  /** The URL `SubmitTrackingInfo` formats for a store and an order reference. */
  function CreateUrl(storeUrl: Text, storeReferenceId: Text): (r: Text)
    requires NoBraces(storeUrl)
    ensures r == storeUrl + "/wp-json/wc/v1/orders/" + storeReferenceId + "/shipment-trackings"
  {
    FormatCreateTemplate(storeUrl, [storeReferenceId]);
    Format(storeUrl + CreateShipmentTrackingEndpoint, [storeReferenceId]).value
  }

  /** The URL `DeleteTrackingInfo` formats: the create template, whatever `trackingId` is. */
  function DeleteUrl(storeUrl: Text, storeReferenceId: Text, trackingId: Text): (r: Text)
    requires NoBraces(storeUrl)
    ensures r == CreateUrl(storeUrl, storeReferenceId)
  {
    FormatCreateTemplate(storeUrl, [storeReferenceId, trackingId]);
    Format(storeUrl + CreateShipmentTrackingEndpoint, [storeReferenceId, trackingId]).value
  }

  /** The delete URL does not depend on the tracking identifier. */
  lemma DeleteUrlIgnoresTrackingId(storeUrl: Text, storeReferenceId: Text, id1: Text, id2: Text)
    requires NoBraces(storeUrl)
    ensures DeleteUrl(storeUrl, storeReferenceId, id1) == DeleteUrl(storeUrl, storeReferenceId, id2)
  {
  }

  /** The unused delete template would have named the tracking record; the URL sent does not. */
  lemma {:induction false} DeleteUrlIsNotDeleteTemplate(storeUrl: Text, storeReferenceId: Text, trackingId: Text)
    requires NoBraces(storeUrl)
    ensures Format(storeUrl + DeleteShipmentTrackingEndpoint, [storeReferenceId, trackingId])
      == Ok(DeleteUrl(storeUrl, storeReferenceId, trackingId) + "/" + trackingId)
  {
    var head := storeUrl + OrdersPath;
    var tail: Text := TrackingsPath + "/";
    PathsHaveNoBraces();
    NoBracesConcat(storeUrl, OrdersPath);
    DeleteTemplateShape(storeUrl);
    FormatTwoItems(head, tail, storeReferenceId, trackingId);
    ConcatFour(head, storeReferenceId, TrackingsPath + "/", trackingId);
    assert DeleteUrl(storeUrl, storeReferenceId, trackingId) == head + storeReferenceId + TrackingsPath;
    assert head + storeReferenceId + TrackingsPath + "/" == head + storeReferenceId + tail;
  }

  lemma DeleteTemplateShape(storeUrl: Text)
    ensures storeUrl + DeleteShipmentTrackingEndpoint
      == storeUrl + OrdersPath + (['{', '0', '}'] + (TrackingsPath + "/" + ['{', '1', '}']))
  {
  }

  /** Brace-free text around the items `{0}` and `{1}`. */
  lemma FormatTwoItems(head: Text, tail: Text, a0: Text, a1: Text)
    requires NoBraces(head) && NoBraces(tail)
    ensures Format(head + (['{', '0', '}'] + (tail + ['{', '1', '}'])), [a0, a1]) == Ok(head + (a0 + (tail + a1)))
  {
    var r: Text := tail + ['{', '1', '}'];
    FormatTextThenLastItem(tail, a0, a1);
    FormatFirstItem(r, tail + a1, a0, a1);
    FormatHeadThenRest(head, ['{', '0', '}'] + r, [a0, a1], a0 + (tail + a1));
  }

  lemma FormatHeadThenRest(head: Text, r: Text, args: seq<Text>, v: Text)
    requires NoBraces(head) && Format(r, args) == Ok(v)
    ensures Format(head + r, args) == Ok(head + v)
  {
    FormatBraceFreePrefix(head, r, args);
  }

  lemma FormatFirstItem(r: Text, v: Text, a0: Text, a1: Text)
    requires Format(r, [a0, a1]) == Ok(v)
    ensures Format(['{', '0', '}'] + r, [a0, a1]) == Ok(a0 + v)
  {
    FormatPlainItem('0', r, [a0, a1]);
  }

  lemma ConcatFour(a: Text, b: Text, c: Text, d: Text)
    ensures a + b + c + d == a + (b + (c + d))
  {
  }

  lemma FormatTextThenLastItem(tail: Text, a0: Text, a1: Text)
    requires NoBraces(tail)
    ensures Format(tail + ['{', '1', '}'], [a0, a1]) == Ok(tail + a1)
  {
    FormatLastItem(a0, a1);
    FormatHeadThenRest(tail, ['{', '1', '}'], [a0, a1], a1);
  }

  lemma FormatLastItem(a0: Text, a1: Text)
    ensures Format(['{', '1', '}'], [a0, a1]) == Ok(a1)
  {
    var item1: Text := ['{', '1', '}'];
    FormatPlainItem('1', [], [a0, a1]);
    assert item1 + [] == item1;
    assert Format([], [a0, a1]) == Ok([]);
    assert a1 + [] == a1;
  }

  /** The authentication branch: consumer key and secret when the URL contains `https://` anywhere. */
  predicate UsesConsumerKeyAuth(url: Text)
  {
    Contains(url, HttpsScheme)
  }

  /**
   * A plain-HTTP store URL takes the OAuth branch whenever neither its host
   * part nor the order reference holds a `:`: the only `:` of the formatted
   * URL is then the scheme's, at index 4, while `https://` would need one at
   * index 5 or later.
   */
  lemma PlainStoreUsesOAuth(storeUrl: Text, host: Text, storeReferenceId: Text)
    requires storeUrl == "http://" + host && NoBraces(storeUrl)
    requires ':' !in host && ':' !in storeReferenceId
    ensures !UsesConsumerKeyAuth(CreateUrl(storeUrl, storeReferenceId))
  {
    var u := CreateUrl(storeUrl, storeReferenceId);
    var tail := OrdersPath + storeReferenceId + TrackingsPath;
    assert u == "http://" + (host + tail);
    assert ':' !in OrdersPath && ':' !in TrackingsPath;
    assert ':' !in host + tail;
    forall i ensures !OccursAt(u, HttpsScheme, i) {
      if 0 <= i && i + |HttpsScheme| <= |u| {
        assert u[i + 5] != ':' by {
          if i + 5 >= 7 { assert u[i + 5] == (host + tail)[i - 2]; }
        }
        assert u[i..i + |HttpsScheme|][5] == u[i + 5];
      }
    }
  }

  /**
   * The branch follows the whole formatted URL: whatever the store URL, an
   * order reference containing `https://` selects consumer-key
   * authentication.
   */
  lemma ConsumerKeyAuthChosenByOrderReference(storeUrl: Text, storeReferenceId: Text)
    requires NoBraces(storeUrl) && Contains(storeReferenceId, HttpsScheme)
    ensures UsesConsumerKeyAuth(CreateUrl(storeUrl, storeReferenceId))
  {
    var i :| OccursAt(storeReferenceId, HttpsScheme, i);
    var head := storeUrl + OrdersPath;
    var u := CreateUrl(storeUrl, storeReferenceId);
    assert u == head + (storeReferenceId + TrackingsPath);
    var j := |head| + i;
    assert u[j..j + |HttpsScheme|] == storeReferenceId[i..i + |HttpsScheme|];
    assert OccursAt(u, HttpsScheme, j);
  }
}
