/**
 * Percent-encoding as the uploader uses it: `HttpUtility.UrlEncode`
 * (lower-case hex escapes, space as `+`), the regular expression that
 * upper-cases the escapes afterwards, `HttpUtility.UrlDecode`, and the
 * two helpers `UpperCaseUrlEncode` and `SafeUpperCaseUrlEncode` built
 * from them. `Encode` is an independent one-pass reference encoder with
 * upper-case hex, against which the two-stage pipeline is proved.
 */
module UrlEncoding {
  import opened Wrappers
  import opened Strings

  /** The octets `HttpUtility.UrlEncode` copies unescaped. */
  predicate IsUrlSafe(c: Octet)
  {
    ('a' <= c <= 'z') || ('A' <= c <= 'Z') || ('0' <= c <= '9')
    || c == '-' || c == '_' || c == '.' || c == '!' || c == '*' || c == '(' || c == ')'
  }

  predicate IsLowerHexDigit(c: Octet)
  {
    ('0' <= c <= '9') || ('a' <= c <= 'f')
  }

  predicate IsUpperHexDigit(c: Octet)
  {
    ('0' <= c <= '9') || ('A' <= c <= 'F')
  }

  predicate IsHexDigit(c: Octet)
  {
    IsLowerHexDigit(c) || IsUpperHexDigit(c)
  }

  /** The value of a hex digit of either case, as `UrlDecode` reads it. */
  function HexValue(c: Octet): (v: nat)
    requires IsHexDigit(c)
    ensures v < 16
  {
    if '0' <= c <= '9' then c as int - '0' as int
    else if 'a' <= c <= 'f' then c as int - 'a' as int + 10
    else c as int - 'A' as int + 10
  }

  function LowerHexDigit(v: nat): (c: Octet)
    requires v < 16
    ensures IsLowerHexDigit(c) && HexValue(c) == v
  {
    if v < 10 then ('0' as int + v) as char else ('a' as int + v - 10) as char
  }

  function UpperHexDigit(v: nat): (c: Octet)
    requires v < 16
    ensures IsUpperHexDigit(c) && HexValue(c) == v
  {
    if v < 10 then ('0' as int + v) as char else ('A' as int + v - 10) as char
  }

  // ---------------------------------------------------------------------
  // The pipeline as the uploader writes it
  // ---------------------------------------------------------------------

  /** `HttpUtility.UrlEncode` of one octet: lower-case hex escapes. */
  function HttpEncodeOctet(c: Octet): (r: Text)
    ensures 1 <= |r| <= 3 && ' ' !in r
  {
    if IsUrlSafe(c) then [c]
    else if c == ' ' then "+"
    else ['%', LowerHexDigit(c as int / 16), LowerHexDigit(c as int % 16)]
  }

  /** `HttpUtility.UrlEncode` of a non-null string. */
  function HttpUrlEncode(s: Text): (r: Text)
    ensures |s| <= |r| <= 3 * |s|
    ensures ' ' !in r
  {
    if |s| == 0 then [] else HttpEncodeOctet(s[0]) + HttpUrlEncode(s[1..])
  }

  /**
   * `Regex.Replace(input, "(%[0-9a-f][0-9a-f])", m => m.Value.ToUpper())`:
   * non-overlapping matches found left to right, each upper-cased.
   */
  function UpperCaseEscapes(s: Text): (r: Text)
    ensures |r| == |s|
    ensures forall i :: 0 <= i < |s| ==> r[i] == s[i] || ('a' <= s[i] <= 'f' && r[i] as int == s[i] as int - 32)
    decreases |s|
  {
    if |s| >= 3 && s[0] == '%' && IsLowerHexDigit(s[1]) && IsLowerHexDigit(s[2]) then
      ToUpperAscii(s[..3]) + UpperCaseEscapes(s[3..])
    else if |s| == 0 then []
    else [s[0]] + UpperCaseEscapes(s[1..])
  }

  /**
   * `UpperCaseUrlEncode`: `HttpUtility.UrlEncode`, with a null or empty
   * outcome turned into the empty string and the escapes upper-cased.
   */
  function UpperCaseUrlEncode(s: Option<Text>): (r: Text)
    ensures |r| == 0 <==> s.None? || |s.value| == 0
  {
    match s
    case None => []
    case Some(t) =>
      var input := HttpUrlEncode(t);
      if |input| == 0 then [] else UpperCaseEscapes(input)
  }

  /** `HttpUtility.UrlDecode` of a non-null string: `+` and `%HH` decoded. */
  function UrlDecode(s: Text): (r: Text)
    ensures |r| <= |s|
    decreases |s|
  {
    if |s| == 0 then []
    else if s[0] == '+' then [' '] + UrlDecode(s[1..])
    else if s[0] == '%' && |s| >= 3 && IsHexDigit(s[1]) && IsHexDigit(s[2]) then
      [(HexValue(s[1]) * 16 + HexValue(s[2])) as char] + UrlDecode(s[3..])
    else [s[0]] + UrlDecode(s[1..])
  }

  /** `HttpUtility.UrlDecode`, which maps null to null. */
  function UrlDecodeNullable(s: Option<Text>): (r: Option<Text>)
    ensures r.None? <==> s.None?
  {
    match s
    case None => None
    case Some(t) => Some(UrlDecode(t))
  }

  /** `SafeUpperCaseUrlEncode`: decode first, then encode. */
  function SafeUpperCaseUrlEncode(s: Option<Text>): (r: Text)
    ensures |r| == 0 <==> s.None? || |UrlDecode(s.value)| == 0
  {
    UpperCaseUrlEncode(UrlDecodeNullable(s))
  }

  // ---------------------------------------------------------------------
  // Reference encoder
  // ---------------------------------------------------------------------

  /** Percent-encoding of one octet with upper-case hex. */
  function EncodeOctet(c: Octet): (r: Text)
    ensures 1 <= |r| <= 3
  {
    if IsUrlSafe(c) then [c]
    else if c == ' ' then "+"
    else ['%', UpperHexDigit(c as int / 16), UpperHexDigit(c as int % 16)]
  }

  function Encode(s: Text): (r: Text)
    ensures |r| >= |s|
  {
    if |s| == 0 then [] else EncodeOctet(s[0]) + Encode(s[1..])
  }

  /**
   * The shape of every encoder output: url-safe octets, `+`, and `%`
   * followed by two upper-case hex digits.
   */
  predicate IsEncoded(r: Text)
  {
    forall i :: 0 <= i < |r| ==> EncodedAt(r, i)
  }

  predicate EncodedAt(r: Text, i: nat)
    requires i < |r|
  {
    IsUrlSafe(r[i]) || r[i] == '+'
    || (r[i] == '%' && i + 2 < |r| && IsUpperHexDigit(r[i + 1]) && IsUpperHexDigit(r[i + 2]))
  }

  // ---------------------------------------------------------------------
  // Properties
  // ---------------------------------------------------------------------

  lemma UpperCaseEscapesStep(c: Octet, rest: Text)
    ensures UpperCaseEscapes(HttpEncodeOctet(c) + rest) == EncodeOctet(c) + UpperCaseEscapes(rest)
  {
    var s := HttpEncodeOctet(c) + rest;
    if IsUrlSafe(c) || c == ' ' {
      assert s[1..] == rest;
    } else {
      assert s[..3] == HttpEncodeOctet(c);
      assert s[3..] == rest;
    }
  }

  /** The regular expression turns `HttpUtility`'s escapes into the reference ones. */
  lemma {:induction false} UpperCaseEscapesOfHttpEncode(s: Text)
    ensures UpperCaseEscapes(HttpUrlEncode(s)) == Encode(s)
    decreases |s|
  {
    if |s| > 0 {
      UpperCaseEscapesOfHttpEncode(s[1..]);
      UpperCaseEscapesStep(s[0], HttpUrlEncode(s[1..]));
    }
  }

  /** `UpperCaseUrlEncode` of a non-null string is the reference encoding. */
  lemma UpperCaseUrlEncodeIsEncode(s: Text)
    ensures UpperCaseUrlEncode(Some(s)) == Encode(s)
  {
    UpperCaseEscapesOfHttpEncode(s);
  }

  lemma DecodeStep(c: Octet, rest: Text)
    ensures UrlDecode(EncodeOctet(c) + rest) == [c] + UrlDecode(rest)
  {
    var s := EncodeOctet(c) + rest;
    if IsUrlSafe(c) || c == ' ' {
      assert s[1..] == rest;
    } else {
      assert s[3..] == rest;
      assert (c as int / 16) * 16 + c as int % 16 == c as int;
    }
  }

  /** Decoding inverts the reference encoding. */
  lemma {:induction false} DecodeEncode(s: Text)
    ensures UrlDecode(Encode(s)) == s
    decreases |s|
  {
    if |s| > 0 {
      DecodeStep(s[0], Encode(s[1..]));
      DecodeEncode(s[1..]);
      assert [s[0]] + s[1..] == s;
    }
  }

  /** Decoding inverts `UpperCaseUrlEncode`. */
  lemma DecodeUpperCaseUrlEncode(s: Text)
    ensures UrlDecode(UpperCaseUrlEncode(Some(s))) == s
  {
    UpperCaseUrlEncodeIsEncode(s);
    DecodeEncode(s);
  }

  /** `SafeUpperCaseUrlEncode` is idempotent. */
  lemma SafeUpperCaseUrlEncodeIdempotent(s: Option<Text>)
    ensures SafeUpperCaseUrlEncode(Some(SafeUpperCaseUrlEncode(s))) == SafeUpperCaseUrlEncode(s)
  {
    var d := UrlDecodeNullable(s);
    match d
    case None =>
    case Some(t) => DecodeUpperCaseUrlEncode(t);
  }

  /** Re-encoding a text that `UpperCaseUrlEncode` produced leaves it as it is. */
  lemma SafeUpperCaseUrlEncodeOfEncoded(s: Text)
    ensures SafeUpperCaseUrlEncode(Some(UpperCaseUrlEncode(Some(s)))) == UpperCaseUrlEncode(Some(s))
  {
    DecodeUpperCaseUrlEncode(s);
  }

  lemma {:induction false} IsEncodedConcat(a: Text, b: Text)
    requires IsEncoded(a) && IsEncoded(b)
    ensures IsEncoded(a + b)
  {
    var r := a + b;
    forall i | 0 <= i < |r|
      ensures EncodedAt(r, i)
    {
      if i < |a| {
        assert EncodedAt(a, i);
        if a[i] == '%' { assert r[i + 1] == a[i + 1] && r[i + 2] == a[i + 2]; }
      } else {
        assert EncodedAt(b, i - |a|);
        if b[i - |a|] == '%' { assert r[i + 1] == b[i - |a| + 1] && r[i + 2] == b[i - |a| + 2]; }
      }
    }
  }

  /** Every reference encoding has the encoded shape. */
  lemma {:induction false} EncodeIsEncoded(s: Text)
    ensures IsEncoded(Encode(s))
    decreases |s|
  {
    if |s| > 0 {
      var e := EncodeOctet(s[0]);
      forall i | 0 <= i < |e| ensures EncodedAt(e, i) {}
      EncodeIsEncoded(s[1..]);
      IsEncodedConcat(e, Encode(s[1..]));
    }
  }

  /** Every `%` that `UpperCaseUrlEncode` emits starts an escape with upper-case hex digits. */
  lemma UpperCaseUrlEncodeEscapesAreUpperCase(s: Option<Text>)
    ensures var r := UpperCaseUrlEncode(s);
      forall i :: 0 <= i < |r| && r[i] == '%' ==>
        i + 2 < |r| && IsUpperHexDigit(r[i + 1]) && IsUpperHexDigit(r[i + 2])
        && !('a' <= r[i + 1] <= 'f') && !('a' <= r[i + 2] <= 'f')
  {
    if s.Some? {
      UpperCaseUrlEncodeIsEncode(s.value);
      EncodeIsEncoded(s.value);
      EncodedEscapesAreUpperCase(Encode(s.value));
    }
  }

  lemma EncodedEscapesAreUpperCase(r: Text)
    requires IsEncoded(r)
    ensures forall i :: 0 <= i < |r| && r[i] == '%' ==>
      i + 2 < |r| && IsUpperHexDigit(r[i + 1]) && IsUpperHexDigit(r[i + 2])
  {
    forall i | 0 <= i < |r| && r[i] == '%'
      ensures i + 2 < |r| && IsUpperHexDigit(r[i + 1]) && IsUpperHexDigit(r[i + 2])
    {
      assert EncodedAt(r, i);
    }
  }

  /** Whatever the input, null included, `SafeUpperCaseUrlEncode` gives encoded text. */
  lemma SafeUpperCaseUrlEncodeIsEncoded(s: Option<Text>)
    ensures IsEncoded(SafeUpperCaseUrlEncode(s))
  {
    var d := UrlDecodeNullable(s);
    if d.Some? {
      UpperCaseUrlEncodeIsEncode(d.value);
      EncodeIsEncoded(d.value);
    }
  }

  /** An encoded text holds none of the query separators `&`, `=` nor any brace. */
  lemma EncodedHasNoSeparators(r: Text)
    requires IsEncoded(r)
    ensures '&' !in r && '=' !in r && '?' !in r && NoBraces(r)
  {
    forall i | 0 <= i < |r|
      ensures r[i] != '&' && r[i] != '=' && r[i] != '?' && r[i] != '{' && r[i] != '}'
    {
      assert EncodedAt(r, i);
    }
  }

  predicate AllUrlSafe(s: Text)
  {
    forall i :: 0 <= i < |s| ==> IsUrlSafe(s[i])
  }

  /** Text made of url-safe octets passes through encoding and decoding unchanged. */
  lemma {:induction false} UrlSafeUnchanged(s: Text)
    requires AllUrlSafe(s)
    ensures Encode(s) == s && UrlDecode(s) == s
    decreases |s|
  {
    if |s| > 0 {
      UrlSafeUnchanged(s[1..]);
      assert [s[0]] + s[1..] == s;
    }
  }

  /** `SafeUpperCaseUrlEncode` leaves url-safe text unchanged. */
  lemma SafeUpperCaseUrlEncodeOfUrlSafe(s: Text)
    requires AllUrlSafe(s)
    ensures SafeUpperCaseUrlEncode(Some(s)) == s
  {
    UrlSafeUnchanged(s);
    UpperCaseUrlEncodeIsEncode(s);
  }

  /** Null and the empty string both encode to the empty string. */
  lemma NullAndEmptyEncodeToEmpty()
    ensures UpperCaseUrlEncode(None) == [] && UpperCaseUrlEncode(Some([])) == []
    ensures SafeUpperCaseUrlEncode(None) == [] && SafeUpperCaseUrlEncode(Some([])) == []
  {
  }
}
