/**
 * OAuth 1.0a request signing as the uploader performs it (RFC 5849,
 * loosely): parameter normalisation, ordering by normalised key, the
 * signature base string and the call of the keyed hash. HMAC-SHA1
 * followed by Base64 is a parameter `mac`, a function of key and message.
 */
module OAuth {
  import opened Wrappers
  import opened Strings
  import opened UrlEncoding
  import opened Http

  /** `Dictionary<string, string>` enumerated in insertion order; `None` is a null value. */
  type Params = seq<(Text, Option<Text>)>

  /** The normalised dictionary: keys and values already encoded. */
  type Pairs = seq<(Text, Text)>

  /** Base64 of HMAC-SHA1 of a message (second argument) under a key (first argument). */
  type Mac = (Text, Text) -> Text

  function Keys<V>(ps: seq<(Text, V)>): (ks: seq<Text>)
    ensures |ks| == |ps| && forall i :: 0 <= i < |ps| ==> ks[i] == ps[i].0
  {
    seq(|ps|, i requires 0 <= i < |ps| => ps[i].0)
  }

  predicate Distinct(ks: seq<Text>)
  {
    forall i, j :: 0 <= i < j < |ks| ==> ks[i] != ks[j]
  }

  lemma KeysConcat<V>(a: seq<(Text, V)>, b: seq<(Text, V)>)
    ensures Keys(a + b) == Keys(a) + Keys(b)
  {
  }

  // ---------------------------------------------------------------------
  // The dictionary indexer
  // ---------------------------------------------------------------------

  /** `parameters[key] = value`: an existing key keeps its place and takes the new value; a new key goes last. */
  function Put(ps: Params, key: Text, value: Option<Text>): (r: Params)
    requires Distinct(Keys(ps))
    ensures Distinct(Keys(r))
    ensures key !in Keys(ps) ==> r == ps + [(key, value)]
    ensures key in Keys(ps) ==> Keys(r) == Keys(ps)
    ensures key in Keys(ps) ==> forall i :: 0 <= i < |r| ==> r[i] == if ps[i].0 == key then (key, value) else ps[i]
  {
    if key in Keys(ps) then
      var r := seq(|ps|, i requires 0 <= i < |ps| => if ps[i].0 == key then (key, value) else ps[i]);
      assert Keys(r) == Keys(ps);
      r
    else
      KeysConcat(ps, [(key, value)]);
      ps + [(key, value)]
  }

  /** Assigning a key not yet present appends the entry, and its key after the others. */
  lemma PutNewKey(ps: Params, key: Text, value: Option<Text>)
    requires Distinct(Keys(ps)) && key !in Keys(ps)
    ensures Put(ps, key, value) == ps + [(key, value)]
    ensures Keys(Put(ps, key, value)) == Keys(ps) + [key]
  {
    KeysConcat(ps, [(key, value)]);
  }

  // ---------------------------------------------------------------------
  // NormalizeParameters
  // ---------------------------------------------------------------------

  /** Every `%` is the start of `%25`. */
  predicate PercentsEscaped(s: Text)
  {
    forall i :: 0 <= i < |s| && s[i] == '%' ==> i + 2 < |s| && s[i + 1] == '2' && s[i + 2] == '5'
  }

  /** `Replace("%", "%25")`, which escapes an encoded text a second time. */
  function EscapePercent(s: Text): Text
  {
    ReplaceOctet(s, '%', "%25")
  }

  lemma {:induction false} EscapePercentEscapes(s: Text)
    ensures PercentsEscaped(EscapePercent(s))
    decreases |s|
  {
    if |s| > 0 {
      var head: Text := if s[0] == '%' then "%25" else [s[0]];
      var rest := EscapePercent(s[1..]);
      EscapePercentEscapes(s[1..]);
      var r := head + rest;
      assert EscapePercent(s) == r;
      forall i | 0 <= i < |r| && r[i] == '%' ensures i + 2 < |r| && r[i + 1] == '2' && r[i + 2] == '5' {
        if i >= |head| {
          assert r[i] == rest[i - |head|];
          assert r[i + 1] == rest[i - |head| + 1] && r[i + 2] == rest[i - |head| + 2];
        }
      }
    }
  }

  /** The inverse of `EscapePercent`. */
  function UnescapePercent(s: Text): Text
    decreases |s|
  {
    if |s| >= 3 && s[..3] == "%25" then ['%'] + UnescapePercent(s[3..])
    else if |s| == 0 then []
    else [s[0]] + UnescapePercent(s[1..])
  }

  lemma {:induction false} UnescapeEscapePercent(s: Text)
    ensures UnescapePercent(EscapePercent(s)) == s
    decreases |s|
  {
    if |s| > 0 {
      var head: Text := if s[0] == '%' then "%25" else [s[0]];
      var e := EscapePercent(s);
      assert e == head + EscapePercent(s[1..]);
      assert |head| <= 3;
      assert e[|head|..] == EscapePercent(s[1..]);
      if s[0] == '%' {
        assert e[..3] == "%25";
      } else {
        assert e[0] == s[0];
      }
      UnescapeEscapePercent(s[1..]);
      assert [s[0]] + s[1..] == s;
    }
  }

  /** Escaping is injective, so two keys collide after it only when they collided before it. */
  lemma EscapePercentInjective(a: Text, b: Text)
    ensures EscapePercent(a) == EscapePercent(b) <==> a == b
  {
    if EscapePercent(a) == EscapePercent(b) {
      UnescapeEscapePercent(a);
      UnescapeEscapePercent(b);
    }
  }

  /** The key as `NormalizeParameters` stores it. */
  function NormalizeKey(k: Text): Text
  {
    EscapePercent(SafeUpperCaseUrlEncode(Some(k)))
  }

  /** The value as `NormalizeParameters` stores it. */
  function NormalizeValue(v: Option<Text>): Text
  {
    EscapePercent(SafeUpperCaseUrlEncode(v))
  }

  function NormalizePair(p: (Text, Option<Text>)): (Text, Text)
  {
    (NormalizeKey(p.0), NormalizeValue(p.1))
  }

  /** One normalised entry per input entry, in the input's order. */
  function NormalizedPairs(ps: Params): (r: Pairs)
    ensures |r| == |ps|
    ensures forall i :: 0 <= i < |ps| ==> r[i] == NormalizePair(ps[i])
  {
    seq(|ps|, i requires 0 <= i < |ps| => NormalizePair(ps[i]))
  }

  /** Index of the first key equal to an earlier one. */
  function FirstRepeat(ks: seq<Text>): (r: Option<nat>)
    ensures r.None? <==> Distinct(ks)
    ensures r.Some? ==> r.value < |ks| && ks[r.value] in ks[..r.value] && Distinct(ks[..r.value])
    decreases |ks|
  {
    if |ks| == 0 then None
    else
      var init := ks[..|ks| - 1];
      var p := FirstRepeat(init);
      if p.Some? then
        assert init[..p.value] == ks[..p.value];
        p
      else if ks[|ks| - 1] in init then
        Some(|ks| - 1)
      else
        assert forall i :: 0 <= i < |ks| - 1 ==> ks[i] == init[i];
        None
  }

  /**
   * `NormalizeParameters`: every key and value encoded and escaped again;
   * `Dictionary.Add` throws `ArgumentException` at the first entry whose
   * normalised key is already present, which `Err` carries.
   */
  function Normalize(ps: Params): (r: Result<Pairs, Text>)
    ensures r.Ok? <==> Distinct(Keys(NormalizedPairs(ps)))
    ensures r.Ok? ==> r.value == NormalizedPairs(ps)
    ensures r.Err? ==>
      exists j :: 0 <= j < |ps| && NormalizeKey(ps[j].0) == r.error && r.error in Keys(NormalizedPairs(ps[..j]))
  {
    var n := NormalizedPairs(ps);
    match FirstRepeat(Keys(n))
    case None => Ok(n)
    case Some(j) =>
      assert Keys(n)[..j] == Keys(NormalizedPairs(ps[..j]));
      Err(Keys(n)[j])
  }

  /** The first repeat is the one index whose key occurs before it while the keys before it are distinct. */
  lemma {:induction false} FirstRepeatAt(ks: seq<Text>, i: nat)
    requires i < |ks| && ks[i] in ks[..i] && Distinct(ks[..i])
    ensures FirstRepeat(ks) == Some(i)
    decreases |ks|
  {
    var init := ks[..|ks| - 1];
    if i < |ks| - 1 {
      assert init[i] == ks[i] && init[..i] == ks[..i];
      FirstRepeatAt(init, i);
    } else {
      assert init == ks[..i];
    }
  }

  /**
   * The `foreach` of `NormalizeParameters`: each entry normalised and
   * `Add`ed to a new dictionary, which throws on a key already present.
   */
  method NormalizeParameters(ps: Params) returns (r: Result<Pairs, Text>)
    ensures r == Normalize(ps)
  {
    var dictionary: Pairs := [];
    for i := 0 to |ps|
      invariant dictionary == NormalizedPairs(ps[..i])
      invariant Distinct(Keys(dictionary))
    {
      var key := NormalizeKey(ps[i].0);
      var str := NormalizeValue(ps[i].1);
      if key in Keys(dictionary) {
        NormalizeRepeatAt(ps, i);
        return Err(key);
      }
      NormalizedPrefixStep(ps, i);
      dictionary := dictionary + [(key, str)];
    }
    assert ps[..|ps|] == ps;
    return Ok(dictionary);
  }

  /** One more entry of the input adds its normalised entry at the end. */
  lemma NormalizedPrefixStep(ps: Params, i: nat)
    requires i < |ps|
    ensures NormalizedPairs(ps[..i + 1]) == NormalizedPairs(ps[..i]) + [NormalizePair(ps[i])]
    ensures Keys(NormalizedPairs(ps[..i + 1])) == Keys(NormalizedPairs(ps[..i])) + [NormalizeKey(ps[i].0)]
  {
    assert ps[..i + 1] == ps[..i] + [ps[i]];
    KeysConcat(NormalizedPairs(ps[..i]), [NormalizePair(ps[i])]);
  }

  /** `Add` throws at the first entry whose normalised key was added before. */
  lemma NormalizeRepeatAt(ps: Params, i: nat)
    requires i < |ps|
    requires Distinct(Keys(NormalizedPairs(ps[..i])))
    requires NormalizeKey(ps[i].0) in Keys(NormalizedPairs(ps[..i]))
    ensures Normalize(ps) == Err(NormalizeKey(ps[i].0))
  {
    var ks := Keys(NormalizedPairs(ps));
    assert ks[..i] == Keys(NormalizedPairs(ps[..i]));
    assert ks[i] == NormalizeKey(ps[i].0);
    FirstRepeatAt(ks, i);
  }

  /** Every `%` in a normalised key or value is followed by `25`. */
  lemma NormalizedPercentsEscaped(ps: Params)
    ensures forall i :: 0 <= i < |ps| ==>
      PercentsEscaped(NormalizedPairs(ps)[i].0) && PercentsEscaped(NormalizedPairs(ps)[i].1)
  {
    forall i | 0 <= i < |ps|
      ensures PercentsEscaped(NormalizedPairs(ps)[i].0) && PercentsEscaped(NormalizedPairs(ps)[i].1)
    {
      EscapePercentEscapes(SafeUpperCaseUrlEncode(Some(ps[i].0)));
      EscapePercentEscapes(SafeUpperCaseUrlEncode(ps[i].1));
    }
  }

  /** Distinct normalised keys are exactly distinct encoded keys. */
  lemma DistinctNormalizedKeys(ps: Params)
    ensures Distinct(Keys(NormalizedPairs(ps)))
      <==> Distinct(seq(|ps|, i requires 0 <= i < |ps| => SafeUpperCaseUrlEncode(Some(ps[i].0))))
  {
    var e := seq(|ps|, i requires 0 <= i < |ps| => SafeUpperCaseUrlEncode(Some(ps[i].0)));
    forall i, j | 0 <= i < j < |ps|
      ensures Keys(NormalizedPairs(ps))[i] == Keys(NormalizedPairs(ps))[j] <==> e[i] == e[j]
    {
      EscapePercentInjective(e[i], e[j]);
    }
  }

  lemma SpaceSpellingsNormalizeAlike()
    ensures NormalizeKey("a b") == "a+b" && NormalizeKey("a+b") == "a+b"
  {
    SpaceSpellingsDecode();
    SpacedKeyEncodes();
    PlusKeyNotEscaped();
  }

  lemma SpaceSpellingsDecode()
    ensures UrlDecode("a+b") == "a b" && UrlDecode("a b") == "a b"
  {
    assert UrlDecode("a+b") == ['a'] + UrlDecode("+b");
    assert UrlDecode("+b") == [' '] + UrlDecode("b");
    assert UrlDecode("a b") == ['a'] + UrlDecode(" b");
    assert UrlDecode(" b") == [' '] + UrlDecode("b");
  }

  lemma SpacedKeyEncodes()
    ensures UpperCaseUrlEncode(Some("a b")) == "a+b"
  {
    UpperCaseUrlEncodeIsEncode("a b");
    assert Encode("a b") == EncodeOctet('a') + Encode(" b");
    assert Encode(" b") == EncodeOctet(' ') + Encode("b");
  }

  lemma PlusKeyNotEscaped()
    ensures EscapePercent("a+b") == "a+b"
  {
    assert ReplaceOctet("a+b", '%', "%25") == ['a'] + ReplaceOctet("+b", '%', "%25");
    assert ReplaceOctet("+b", '%', "%25") == ['+'] + ReplaceOctet("b", '%', "%25");
  }

  /** Keys that differ only in the spelling of a space collide, and `Add` throws. */
  lemma SpaceSpellingsCollide(x: Option<Text>, y: Option<Text>)
    ensures Normalize([("a b", x), ("a+b", y)]) == Err("a+b")
  {
    var ps: Params := [("a b", x), ("a+b", y)];
    SpaceSpellingsNormalizeAlike();
    var n := NormalizedPairs(ps);
    assert Keys(n)[0] == Keys(n)[1];
    assert FirstRepeat(Keys(n)[..1]) == None;
    assert Keys(n)[..|Keys(n)| - 1] == Keys(n)[..1];
    assert FirstRepeat(Keys(n)) == Some(1);
  }

  // ---------------------------------------------------------------------
  // Ordinal ordering and OrderBy
  // ---------------------------------------------------------------------

  /** Ordinal string order: octet by octet, a proper prefix first. */
  predicate Less(a: Text, b: Text)
    decreases |a|
  {
    if |a| == 0 then |b| > 0
    else if |b| == 0 then false
    else if a[0] != b[0] then a[0] < b[0]
    else Less(a[1..], b[1..])
  }

  lemma {:induction false} LessIrreflexive(a: Text)
    ensures !Less(a, a)
    decreases |a|
  {
    if |a| > 0 { LessIrreflexive(a[1..]); }
  }

  lemma {:induction false} LessAsymmetric(a: Text, b: Text)
    requires Less(a, b)
    ensures !Less(b, a)
    decreases |a|
  {
    if |a| > 0 && |b| > 0 && a[0] == b[0] { LessAsymmetric(a[1..], b[1..]); }
  }

  lemma {:induction false} LessTransitive(a: Text, b: Text, c: Text)
    requires Less(a, b) && Less(b, c)
    ensures Less(a, c)
    decreases |a|
  {
    if |a| > 0 && a[0] == b[0] && b[0] == c[0] { LessTransitive(a[1..], b[1..], c[1..]); }
  }

  lemma {:induction false} LessTotal(a: Text, b: Text)
    requires a != b
    ensures Less(a, b) || Less(b, a)
    decreases |a|
  {
    if |a| > 0 && |b| > 0 && a[0] == b[0] {
      assert a == [a[0]] + a[1..] && b == [b[0]] + b[1..];
      LessTotal(a[1..], b[1..]);
    }
  }

  /** Texts sharing a prefix are ordered by the first octet after it. */
  lemma {:induction false} LessAt(a: Text, b: Text, k: nat)
    requires k < |a| && k < |b| && a[..k] == b[..k] && a[k] < b[k]
    ensures Less(a, b)
    decreases k
  {
    if k > 0 {
      assert a[0] == a[..k][0] == b[..k][0] == b[0];
      assert a[1..][..k - 1] == a[..k][1..] == b[..k][1..] == b[1..][..k - 1];
      LessAt(a[1..], b[1..], k - 1);
    }
  }

  /** Insertion of one entry after all entries whose key is not greater. */
  function Insert(p: (Text, Text), sorted: Pairs): (r: Pairs)
    ensures multiset(r) == multiset(sorted) + multiset{p}
    ensures forall k :: k in Keys(r) <==> k == p.0 || k in Keys(sorted)
    decreases |sorted|
  {
    if |sorted| == 0 then [p]
    else if Less(p.0, sorted[0].0) then
      KeysConcat([p], sorted);
      [p] + sorted
    else
      var rest := Insert(p, sorted[1..]);
      assert sorted == [sorted[0]] + sorted[1..];
      KeysConcat([sorted[0]], rest);
      KeysConcat([sorted[0]], sorted[1..]);
      [sorted[0]] + rest
  }

  /** `OrderBy(x => x.Key)`: a stable sort by key. */
  function SortByKey(ps: Pairs): (r: Pairs)
    ensures multiset(r) == multiset(ps)
    ensures forall k :: k in Keys(r) <==> k in Keys(ps)
    decreases |ps|
  {
    if |ps| == 0 then []
    else
      var init := ps[..|ps| - 1];
      assert ps == init + [ps[|ps| - 1]];
      KeysConcat(init, [ps[|ps| - 1]]);
      Insert(ps[|ps| - 1], SortByKey(init))
  }

  predicate StrictlyAscending(ps: Pairs)
  {
    forall i, j :: 0 <= i < j < |ps| ==> Less(ps[i].0, ps[j].0)
  }

  /** An entry whose key is less than every key of an ascending sequence can go in front of it. */
  lemma ConsAscending(x: (Text, Text), rest: Pairs)
    requires StrictlyAscending(rest)
    requires forall j :: 0 <= j < |rest| ==> Less(x.0, rest[j].0)
    ensures StrictlyAscending([x] + rest)
  {
    var r := [x] + rest;
    forall i, j | 0 <= i < j < |r| ensures Less(r[i].0, r[j].0) {
      assert r[j] == rest[j - 1];
      if i > 0 { assert r[i] == rest[i - 1]; }
    }
  }

  lemma {:induction false} InsertAscending(p: (Text, Text), sorted: Pairs)
    requires StrictlyAscending(sorted) && p.0 !in Keys(sorted)
    ensures StrictlyAscending(Insert(p, sorted))
    decreases |sorted|
  {
    if |sorted| > 0 {
      if Less(p.0, sorted[0].0) {
        forall j | 0 <= j < |sorted| ensures Less(p.0, sorted[j].0) {
          if j > 0 { LessTransitive(p.0, sorted[0].0, sorted[j].0); }
        }
        ConsAscending(p, sorted);
      } else {
        InsertAfterHead(p, sorted);
      }
    }
  }

  lemma {:induction false} InsertAfterHead(p: (Text, Text), sorted: Pairs)
    requires StrictlyAscending(sorted) && p.0 !in Keys(sorted)
    requires |sorted| > 0 && !Less(p.0, sorted[0].0)
    ensures StrictlyAscending(Insert(p, sorted))
    decreases |sorted|, 0
  {
    assert p.0 != sorted[0].0;
    LessTotal(p.0, sorted[0].0);
    var tail := sorted[1..];
    assert Keys(tail) == Keys(sorted)[1..];
    assert StrictlyAscending(tail) by {
      forall i, j | 0 <= i < j < |tail| ensures Less(tail[i].0, tail[j].0) {
        assert tail[i] == sorted[i + 1] && tail[j] == sorted[j + 1];
      }
    }
    InsertAscending(p, tail);
    var rest := Insert(p, tail);
    forall j | 0 <= j < |rest| ensures Less(sorted[0].0, rest[j].0) {
      var k := rest[j].0;
      assert k in Keys(rest);
      if k != p.0 {
        assert k in Keys(tail);
        var m :| 0 <= m < |tail| && tail[m].0 == k;
        assert tail[m] == sorted[m + 1];
      }
    }
    ConsAscending(sorted[0], rest);
  }

  /** With distinct keys the sorted entries are in strictly ascending key order. */
  lemma {:induction false} SortByKeyAscending(ps: Pairs)
    requires Distinct(Keys(ps))
    ensures StrictlyAscending(SortByKey(ps))
    decreases |ps|
  {
    if |ps| > 0 {
      var init := ps[..|ps| - 1];
      assert Keys(init) == Keys(ps)[..|ps| - 1];
      SortByKeyAscending(init);
      assert ps[|ps| - 1].0 !in Keys(init);
      InsertAscending(ps[|ps| - 1], SortByKey(init));
    }
  }

  lemma AscendingTail(xs: Pairs)
    requires StrictlyAscending(xs) && |xs| > 0
    ensures StrictlyAscending(xs[1..])
  {
    forall i, j | 0 <= i < j < |xs| - 1 ensures Less(xs[1..][i].0, xs[1..][j].0) {
      assert xs[1..][i] == xs[i + 1] && xs[1..][j] == xs[j + 1];
    }
  }

  /** Of two strictly ascending arrangements of the same entries, the first entries agree. */
  lemma AscendingHeads(xs: Pairs, ys: Pairs)
    requires StrictlyAscending(xs) && StrictlyAscending(ys)
    requires multiset(xs) == multiset(ys) && |xs| > 0
    ensures |ys| > 0 && xs[0] == ys[0]
  {
    assert xs[0] in multiset(ys);
    assert ys[0] in multiset(xs);
    var j :| 0 <= j < |ys| && ys[j] == xs[0];
    var i :| 0 <= i < |xs| && xs[i] == ys[0];
    if j > 0 {
      assert Less(ys[0].0, ys[j].0);
      if i > 0 {
        LessAsymmetric(xs[0].0, xs[i].0);
      } else {
        LessIrreflexive(xs[0].0);
      }
    }
  }

  /** Two strictly ascending arrangements of the same entries are the same sequence. */
  lemma {:induction false} AscendingUnique(xs: Pairs, ys: Pairs)
    requires StrictlyAscending(xs) && StrictlyAscending(ys)
    requires multiset(xs) == multiset(ys)
    ensures xs == ys
    decreases |xs|
  {
    if |xs| == 0 {
      assert |multiset(ys)| == 0;
    } else {
      AscendingHeads(xs, ys);
      assert xs == [xs[0]] + xs[1..] && ys == [ys[0]] + ys[1..];
      assert multiset(xs[1..]) == multiset(xs) - multiset{xs[0]};
      assert multiset(ys[1..]) == multiset(ys) - multiset{ys[0]};
      AscendingTail(xs);
      AscendingTail(ys);
      AscendingUnique(xs[1..], ys[1..]);
    }
  }

  /** The order of the signed parameters does not depend on the order they were inserted in. */
  lemma SortByKeyIgnoresInsertionOrder(ps: Pairs, qs: Pairs)
    requires Distinct(Keys(ps)) && Distinct(Keys(qs))
    requires multiset(ps) == multiset(qs)
    ensures SortByKey(ps) == SortByKey(qs)
  {
    SortByKeyAscending(ps);
    SortByKeyAscending(qs);
    AscendingUnique(SortByKey(ps), SortByKey(qs));
  }

  /** A strictly ascending arrangement is what sorting produces. */
  lemma SortByKeyOfAscending(ps: Pairs, expected: Pairs)
    requires Distinct(Keys(ps)) && StrictlyAscending(expected)
    requires multiset(ps) == multiset(expected)
    ensures SortByKey(ps) == expected
  {
    SortByKeyAscending(ps);
    AscendingUnique(SortByKey(ps), expected);
  }

  // ---------------------------------------------------------------------
  // GenerateSignature
  // ---------------------------------------------------------------------

  /** `key + "%3D" + value` for each entry. */
  function PairTexts(ps: Pairs): (r: seq<Text>)
    ensures |r| == |ps|
    ensures forall i :: 0 <= i < |ps| ==> r[i] == ps[i].0 + "%3D" + ps[i].1
  {
    seq(|ps|, i requires 0 <= i < |ps| => ps[i].0 + "%3D" + ps[i].1)
  }

  /** The parameter part of the base string: the sorted entries joined by `%26`. */
  function SignedParameters(normalized: Pairs): Text
  {
    Join("%26", PairTexts(SortByKey(normalized)))
  }

  /**
   * `{METHOD}&{encoded URI}&{sorted parameters}`. When no normalised
   * parameter holds `&`, which normalisation guarantees, the three parts
   * can be read back by splitting at `&`.
   */
  function SignatureBaseString(httpMethod: HttpMethod, uri: Text, normalized: Pairs): (r: Text)
    ensures (forall i :: 0 <= i < |normalized| ==> '&' !in normalized[i].0 && '&' !in normalized[i].1) ==>
      Split(r, '&') == [ToUpperAscii(MethodName(httpMethod)), SafeUpperCaseUrlEncode(Some(uri)), SignedParameters(normalized)]
  {
    SafeUpperCaseUrlEncodeIsEncoded(Some(uri));
    BaseStringParts(ToUpperAscii(MethodName(httpMethod)), SafeUpperCaseUrlEncode(Some(uri)), httpMethod, normalized);
    ToUpperAscii(MethodName(httpMethod)) + Ampersand + SafeUpperCaseUrlEncode(Some(uri)) + Ampersand + SignedParameters(normalized)
  }

  /** The separator of the three parts of the base string. */
  const Ampersand: Text := "&"

  lemma BaseStringParts(m: Text, u: Text, httpMethod: HttpMethod, normalized: Pairs)
    requires m == ToUpperAscii(MethodName(httpMethod)) && IsEncoded(u)
    ensures (forall i :: 0 <= i < |normalized| ==> '&' !in normalized[i].0 && '&' !in normalized[i].1) ==>
      Split(m + Ampersand + u + Ampersand + SignedParameters(normalized), '&') == [m, u, SignedParameters(normalized)]
  {
    if forall i :: 0 <= i < |normalized| ==> '&' !in normalized[i].0 && '&' !in normalized[i].1 {
      assert Ampersand == ['&'];
      MethodNameAvoidsAmpersand(httpMethod);
      EncodedHasNoSeparators(u);
      SignedParametersAvoidAmpersand(normalized);
      SplitThree(m, u, SignedParameters(normalized), '&');
    }
  }

  lemma MethodNameAvoidsAmpersand(httpMethod: HttpMethod)
    ensures '&' !in ToUpperAscii(MethodName(httpMethod))
  {
    var n := MethodName(httpMethod);
    assert forall i :: 0 <= i < |n| ==> 'A' <= n[i] <= 'Z';
  }

  /** The sorted `k%3Dv` entries keep out any `&` that the pairs keep out. */
  lemma SignedParametersAvoidAmpersand(normalized: Pairs)
    requires forall i :: 0 <= i < |normalized| ==> '&' !in normalized[i].0 && '&' !in normalized[i].1
    ensures '&' !in SignedParameters(normalized)
  {
    var sorted := SortByKey(normalized);
    var texts := PairTexts(sorted);
    forall k | 0 <= k < |texts| ensures '&' !in texts[k] {
      assert sorted[k] in multiset(normalized);
      var j :| 0 <= j < |normalized| && normalized[j] == sorted[k];
    }
    JoinAvoids("%26", texts, '&');
  }

  /** `_secret + "&"`: string concatenation reads a null secret as empty. */
  function SigningKey(secret: Option<Text>): (k: Text)
    ensures |k| > 0 && k[|k| - 1] == '&'
    ensures secret.Some? ==> k == secret.value + "&"
    ensures secret.None? ==> k == "&"
  {
    (match secret case None => [] case Some(s) => s) + "&"
  }

  /**
   * `GenerateSignature`: the keyed hash of the base string under
   * `secret&`, or the `ArgumentException` of a normalised-key collision.
   */
  function GenerateSignature(secret: Option<Text>, httpMethod: HttpMethod, ps: Params, uri: Text, mac: Mac): (r: Result<Text, Text>)
    ensures r.Ok? <==> Distinct(Keys(NormalizedPairs(ps)))
    ensures r.Ok? ==> r.value == mac(SigningKey(secret), SignatureBaseString(httpMethod, uri, NormalizedPairs(ps)))
  {
    match Normalize(ps)
    case Err(k) => Err(k)
    case Ok(normalized) => Ok(mac(SigningKey(secret), SignatureBaseString(httpMethod, uri, normalized)))
  }

  /** The base string's entries are the normalised parameters, each once, in strictly ascending key order. */
  lemma SignedEntriesAscending(ps: Params)
    requires Distinct(Keys(NormalizedPairs(ps)))
    ensures StrictlyAscending(SortByKey(NormalizedPairs(ps)))
    ensures multiset(SortByKey(NormalizedPairs(ps))) == multiset(NormalizedPairs(ps))
  {
    SortByKeyAscending(NormalizedPairs(ps));
  }
}
