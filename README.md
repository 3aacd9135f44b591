# WooCommerce shipment-tracking uploader

A Dafny model of `WCTrackingUploader`. This client attaches shipment-tracking
records to the orders of a WooCommerce store through the store's REST API, and
deletes them again. The model covers the following.

- **Store and endpoints.** The uploader keeps the consumer key (`username`),
  the consumer secret (`secret`) and the store URL. `ChangeClient` strips a
  trailing `/` from the URL. Resource URLs come from `string.Format` over the
  `/wp-json/wc/v1/orders/{0}/shipment-trackings` template.
- **Authentication fragment.** It depends on the formatted URL:
  - if the URL contains `https://`, the fragment is the TLS one,
    `?consumer_key=…&consumer_secret=…`;
  - otherwise it is the OAuth 1.0a one. That fragment carries
    `oauth_consumer_key`, `oauth_timestamp`, `oauth_nonce`,
    `oauth_signature_method`, `oauth_version` and `oauth_signature`, in
    insertion order.
- **Signature.** The base string is `METHOD&url&params`. `params` is the
  parameter dictionary with keys and values URL-encoded, with `%` escaped
  once more, sorted by key, written as `k%3Dv` and joined by `%26`. The
  signing key is `secret&`.
- **Nonce.** 32 characters, each picked by `random.Next(0, 61)` from the
  62-character alphabet `a-zA-Z0-9`. Only its first 61 characters can be
  picked, so `9` never is.
- **URL encoding.** `HttpUtility.UrlEncode` with upper-case escapes
  (`UpperCaseUrlEncode`). `SafeUpperCaseUrlEncode` is a URL-decode followed by
  that encoding.
- **Responses.** The two `BuildResponse` overloads turn either an HTTP status
  plus a parsed JSON body, or a caught exception, into the `Response` struct.

Module layout:

| module | models |
|---|---|
| `Wrappers`, `Strings` | `Option`/`Result`, and octet strings with `EndsWith`, `Contains`, `Split`, `Join` and `ToUpper` |
| `UrlEncoding` | `HttpUtility.UrlEncode`/`UrlDecode`, `UpperCaseUrlEncode`, `SafeUpperCaseUrlEncode` |
| `Formatting` | `string.Format` with string arguments, parsed as .NET Framework 4 parses composite format strings: items with an index, an alignment and a format specifier, the `{{`/`}}` escapes, `FormatException` |
| `Names` | the parameter names and fixed values |
| `Nonce` | `GenerateNonce` |
| `OAuth` | the ordered `Dictionary` (indexer assignment), `NormalizeParameters`, `OrderBy(Key)`, `GenerateSignature` |
| `Endpoints` | store-URL normalisation, endpoint templates, the `https://` test |
| `Fragments` | the query fragments built by `GenerateSecurityFragmentsSSL` and `GenerateSecurityUriFragments` |
| `Http`, `Responses` | the request and reply values at the HTTP boundary; `Response` and `BuildResponse` |
| `Uploader` | the `WCTrackingUploader` class: fields, constructor, `ChangeClient`, `SubmitTrackingInfo`, `DeleteTrackingInfo` |

The foreign calls are parameters of the model.

| foreign call | parameter |
|---|---|
| the clock | `timestamp`: a non-empty decimal digit text |
| `System.Random` | `draws`: 32 numbers, each below 61 |
| `HMACSHA1` with Base64 | `mac: (key, message) -> text` |
| the HTTP client, the JSON deserialiser and whatever they throw | `send: Request -> Reply` |

A .NET `Dictionary` that is only ever added to enumerates its entries in
insertion order. The model therefore represents the dictionaries as sequences
of pairs, in insertion order. `null` is `None`.

Behaviour of the code that the model reproduces and proves:

- **Delete uses the create URL.** `DeleteTrackingInfo` formats the *create*
  template, into which the tracking id is never inserted. It signs the request
  as `POST` and sends it as `DELETE`. `DeleteUrlIgnoresTrackingId` and
  `DeleteUrlIsNotDeleteTemplate` prove this.
- **The nonce never contains `9`.** `random.Next(0, 61)` never picks index 61,
  the digit `9` (`NonceOf`).
- **The order reference can choose the scheme.** The branch tests the
  *formatted* URL. An order reference containing `https://` therefore selects
  the TLS fragment even for a plain `http` store
  (`ConsumerKeyAuthChosenByOrderReference`).
- **Braces in the store URL are format syntax.** The store URL is part of the
  format string, so a brace there is parsed. A `{` followed by neither a digit
  nor a second `{` (as in `http://{shop}`), or a `}` that is not doubled, makes
  `string.Format` throw `FormatException`. The `try`/`catch` turns that into an
  exception `Response`. An item such as `{0}`, `{0 }` or `{00}` in the store
  URL is instead replaced by the order reference. The model keeps both paths
  rather than excluding such inputs. A brace in the order reference is only
  parsed by the delete's second, argument-less `string.Format`, where any
  format item fails.
- **Duplicate keys fail.** Two parameter keys can have the same encoded form
  (`"a b"` and `"a+b"`). `NormalizeParameters` then fails, because
  `Dictionary.Add` throws on the duplicate. The model returns `Err` with the
  repeated key.

The code has no envelope that nests the status under `data.status`: the only
fields read from the body are `message`, `code`, `tracking_id` and
`date_shipped`.

## Model

| member | source | states |
|---|---|---|
| Endpoints.NormalizeStoreUrl | WooCommerceTrackingTester/WCTrackingUploader.cs:52-53 | the result is a prefix of the URL at most one octet shorter, and equals the URL exactly when it does not end in `/` |
| Endpoints.NormalizeStoreUrlTrailingSlash | WooCommerceTrackingTester/WCTrackingUploader.cs:52-53 | a URL with one trailing slash normalises to the same store URL as the URL without it |
| Endpoints.NormalizeStoreUrlRemovesOneSlash | WooCommerceTrackingTester/WCTrackingUploader.cs:52-53 | only one slash is removed: `x//` becomes `x/` |
| Endpoints.FormatCreateTemplate | WooCommerceTrackingTester/WCTrackingUploader.cs:83 | for a brace-free store URL, formatting the create template inserts the first argument between the orders path and the trackings path and ignores any further arguments |
| Endpoints.CreateUrl | WooCommerceTrackingTester/WCTrackingUploader.cs:83 | for a brace-free store URL, the formatted create template is the store URL, the orders path, the order reference and `/shipment-trackings` |
| Endpoints.DeleteUrl | WooCommerceTrackingTester/WCTrackingUploader.cs:115 | the URL a delete addresses is the create URL of the same order |
| Endpoints.DeleteUrlIgnoresTrackingId | WooCommerceTrackingTester/WCTrackingUploader.cs:115 | two deletes of different tracking ids on the same order address the same URL |
| Endpoints.DeleteUrlIsNotDeleteTemplate | WooCommerceTrackingTester/WCTrackingUploader.cs:38-40 | the unused delete template would have produced the URL used plus `/` and the tracking id |
| Endpoints.PlainStoreUsesOAuth | WooCommerceTrackingTester/WCTrackingUploader.cs:83-84 | a store URL `http://` + host, where neither the host part nor the order reference holds a `:`, gives a formatted URL without `https://`, so it takes the OAuth branch |
| Endpoints.ConsumerKeyAuthChosenByOrderReference | WooCommerceTrackingTester/WCTrackingUploader.cs:83-84 | for every store URL, an order reference containing `https://` makes the formatted URL take the TLS branch |
| Formatting.Format | WooCommerceTrackingTester/WCTrackingUploader.cs:83 | the `string.Format` of lines 83, 115 and 121: it fails only when the format string holds a brace |
| Formatting.FormatItem | WooCommerceTrackingTester/WCTrackingUploader.cs:83 | an item `{d}`, with any number of spaces after its one-digit index, is replaced by argument `d` |
| Formatting.FormatItemWithLeadingZero | WooCommerceTrackingTester/WCTrackingUploader.cs:83 | a two-digit index with a leading zero, `{0d}`, names argument `d` |
| Formatting.FormatAlignedItem | WooCommerceTrackingTester/WCTrackingUploader.cs:83 | `{d,w}` and `{d,-w}` pad argument `d` with spaces to width `w`, on the left and on the right respectively |
| Formatting.FormatSpecifiedItem | WooCommerceTrackingTester/WCTrackingUploader.cs:83 | a string argument ignores a brace-free format specifier `{d:spec}` |
| Formatting.ItemBeyondArgumentsFails | WooCommerceTrackingTester/WCTrackingUploader.cs:115 | an item `{d}` with a one-digit index `d`, and any spaces before its `}`, fails when `d` is not below the number of arguments |
| Formatting.FormatItemBeyondArguments | WooCommerceTrackingTester/WCTrackingUploader.cs:115 | any item the parser reads, whatever its index digits, spaces, alignment or specifier, fails when its index is not below the number of arguments |
| Formatting.LoneBraceFails | WooCommerceTrackingTester/WCTrackingUploader.cs:83 | after brace-free text, a `{` followed by neither a digit nor a second `{` fails |
| Formatting.StrayCloseFails | WooCommerceTrackingTester/WCTrackingUploader.cs:83 | after brace-free text, a `}` that is not doubled fails |
| Formatting.FormatBraceFree | WooCommerceTrackingTester/WCTrackingUploader.cs:83 | `string.Format` returns a brace-free format string unchanged, whatever the arguments |
| Formatting.FormatWithoutArgumentsIdentity | WooCommerceTrackingTester/WCTrackingUploader.cs:121 | `string.Format` with no arguments returns its input unchanged if and only if the input has no brace |
| UrlEncoding.HttpUrlEncode | WooCommerceTrackingTester/WCTrackingUploader.cs:238 | each octet becomes one to three octets, and no space is left in the result |
| UrlEncoding.UpperCaseEscapes | WooCommerceTrackingTester/WCTrackingUploader.cs:241 | the length is kept, and the only octets changed are lower-case `a`-`f`, each turned into its upper-case letter |
| UrlEncoding.UrlDecode | WooCommerceTrackingTester/WCTrackingUploader.cs:246 | decoding never lengthens a text |
| UrlEncoding.SafeUpperCaseUrlEncode | WooCommerceTrackingTester/WCTrackingUploader.cs:244-247 | the result is empty exactly when the input is null or decodes to the empty text |
| UrlEncoding.UpperCaseUrlEncode | WooCommerceTrackingTester/WCTrackingUploader.cs:236-242 | the result is empty exactly when the input is null or empty |
| UrlEncoding.UpperCaseEscapesOfHttpEncode | WooCommerceTrackingTester/WCTrackingUploader.cs:238-241 | upper-casing the `%xx` escapes of `HttpUtility.UrlEncode` output equals the octet-by-octet reference encoding with upper-case hex |
| UrlEncoding.UpperCaseUrlEncodeIsEncode | WooCommerceTrackingTester/WCTrackingUploader.cs:236-242 | `UpperCaseUrlEncode` of any non-null text equals the reference encoding |
| UrlEncoding.DecodeEncode | WooCommerceTrackingTester/WCTrackingUploader.cs:246 | URL-decoding inverts the reference encoding on every text |
| UrlEncoding.DecodeUpperCaseUrlEncode | WooCommerceTrackingTester/WCTrackingUploader.cs:236-247 | URL-decoding inverts `UpperCaseUrlEncode` |
| UrlEncoding.UrlDecodeNullable | WooCommerceTrackingTester/WCTrackingUploader.cs:246 | decoding yields null exactly when its input is null |
| UrlEncoding.SafeUpperCaseUrlEncodeIdempotent | WooCommerceTrackingTester/WCTrackingUploader.cs:244-247 | applying `SafeUpperCaseUrlEncode` twice gives the same text as applying it once |
| UrlEncoding.SafeUpperCaseUrlEncodeOfEncoded | WooCommerceTrackingTester/WCTrackingUploader.cs:244-247 | `SafeUpperCaseUrlEncode` leaves the output of `UpperCaseUrlEncode` unchanged |
| UrlEncoding.UpperCaseUrlEncodeEscapesAreUpperCase | WooCommerceTrackingTester/WCTrackingUploader.cs:241 | every `%` in the result is followed by two hex digits, neither of them a lower-case letter |
| UrlEncoding.EncodeIsEncoded | WooCommerceTrackingTester/WCTrackingUploader.cs:238-241 | the reference encoding yields only unreserved octets, `+`, and `%` with two upper-case hex digits |
| UrlEncoding.SafeUpperCaseUrlEncodeIsEncoded | WooCommerceTrackingTester/WCTrackingUploader.cs:244-247 | the output of `SafeUpperCaseUrlEncode` has that encoded form for every input, null included |
| UrlEncoding.EncodedHasNoSeparators | WooCommerceTrackingTester/WCTrackingUploader.cs:179 | encoded text holds no `&`, `=`, `?` or brace, so it cannot break the query or the format string |
| UrlEncoding.UrlSafeUnchanged | WooCommerceTrackingTester/WCTrackingUploader.cs:238 | text made only of unreserved octets is unchanged by encoding and by decoding |
| UrlEncoding.SafeUpperCaseUrlEncodeOfUrlSafe | WooCommerceTrackingTester/WCTrackingUploader.cs:244-247 | `SafeUpperCaseUrlEncode` leaves such text unchanged |
| UrlEncoding.NullAndEmptyEncodeToEmpty | WooCommerceTrackingTester/WCTrackingUploader.cs:239-240 | null and the empty text both encode to the empty text, in both encoders |
| Nonce.NonceAlphabetFacts | WooCommerceTrackingTester/WCTrackingUploader.cs:208 | the alphabet has 62 octets, its last is `9`, and every other one is unreserved and differs from `9` |
| Nonce.NonceOf | WooCommerceTrackingTester/WCTrackingUploader.cs:203-210 | a nonce has 32 octets, octet `i` being the alphabet character that draw `i` picks; each is among the first 61 of the alphabet, none is `9`, all are unreserved |
| Nonce.GenerateNonce | WooCommerceTrackingTester/WCTrackingUploader.cs:203-210 | the loop appends the alphabet octet picked by each draw, in order, giving `NonceOf(draws)` |
| OAuth.Put | WooCommerceTrackingTester/WCTrackingUploader.cs:188-193 | dictionary indexer assignment: a new key is appended at the end, an existing key keeps its place and takes the new value, and keys stay distinct |
| OAuth.PutNewKey | WooCommerceTrackingTester/WCTrackingUploader.cs:175-176 | assigning a key not yet present appends exactly one entry, so the keys grow by that key |
| OAuth.EscapePercentInjective | WooCommerceTrackingTester/WCTrackingUploader.cs:217-218 | `Replace("%", "%25")` maps different texts to different texts |
| OAuth.UnescapeEscapePercent | WooCommerceTrackingTester/WCTrackingUploader.cs:217-218 | `Replace("%25", "%")` undoes that escape |
| OAuth.Normalize | WooCommerceTrackingTester/WCTrackingUploader.cs:212-222 | normalisation succeeds exactly when the normalised keys are distinct, and then returns the normalised pairs in insertion order; otherwise it fails with a key that some parameter normalises to after an earlier one already has (the throwing `Dictionary.Add`) |
| OAuth.NormalizeParameters | WooCommerceTrackingTester/WCTrackingUploader.cs:212-222 | the loop that adds each normalised pair computes `Normalize`, failing at the first repeated key |
| OAuth.NormalizedPercentsEscaped | WooCommerceTrackingTester/WCTrackingUploader.cs:217-218 | every `%` in a normalised key or value begins `%25` |
| OAuth.DistinctNormalizedKeys | WooCommerceTrackingTester/WCTrackingUploader.cs:217-219 | normalised keys are distinct exactly when the `SafeUpperCaseUrlEncode` forms of the original keys are |
| OAuth.SpaceSpellingsCollide | WooCommerceTrackingTester/WCTrackingUploader.cs:217-219 | the keys `a b` and `a+b` normalise alike, so normalising both fails on `a+b` |
| OAuth.LessIrreflexive | WooCommerceTrackingTester/WCTrackingUploader.cs:232 | the key order is irreflexive |
| OAuth.LessAsymmetric | WooCommerceTrackingTester/WCTrackingUploader.cs:232 | the key order is asymmetric |
| OAuth.LessTransitive | WooCommerceTrackingTester/WCTrackingUploader.cs:232 | the key order is transitive |
| OAuth.LessTotal | WooCommerceTrackingTester/WCTrackingUploader.cs:232 | any two different keys are ordered one way or the other |
| OAuth.SortByKey | WooCommerceTrackingTester/WCTrackingUploader.cs:232 | sorting is a permutation of the pairs and keeps the same set of keys |
| OAuth.SortByKeyAscending | WooCommerceTrackingTester/WCTrackingUploader.cs:232 | with distinct keys the sorted pairs are strictly ascending by key |
| OAuth.AscendingUnique | WooCommerceTrackingTester/WCTrackingUploader.cs:232 | two strictly ascending permutations of the same pairs are equal |
| OAuth.SortByKeyIgnoresInsertionOrder | WooCommerceTrackingTester/WCTrackingUploader.cs:232 | pairs with distinct keys inserted in any order sort to the same sequence |
| OAuth.SortByKeyOfAscending | WooCommerceTrackingTester/WCTrackingUploader.cs:232 | sorting returns the unique strictly ascending permutation |
| OAuth.SignatureBaseString | WooCommerceTrackingTester/WCTrackingUploader.cs:233 | when no normalised parameter holds `&`, splitting the base string at `&` gives back the upper-case method, the encoded URL and the sorted parameter list |
| OAuth.SigningKey | WooCommerceTrackingTester/WCTrackingUploader.cs:233 | the key is the secret followed by `&`, and a null secret gives `&` alone |
| OAuth.GenerateSignature | WooCommerceTrackingTester/WCTrackingUploader.cs:229-234 | the signature exists exactly when normalisation succeeds, and is then the MAC under `secret&` of the base string over the normalised parameters |
| OAuth.SignedEntriesAscending | WooCommerceTrackingTester/WCTrackingUploader.cs:232 | the entries the base string joins are a strictly ascending permutation of the normalised parameters |
| Strings.Contains | WooCommerceTrackingTester/WCTrackingUploader.cs:84 | `Contains` holds exactly when the text occurs at some position |
| Names.OAuthNamesDistinct | WooCommerceTrackingTester/WCTrackingUploader.cs:188-193 | the six OAuth parameter names are pairwise different |
| Fragments.BuildQuery | WooCommerceTrackingTester/WCTrackingUploader.cs:195-200 | the `AppendFormat` loop followed by `Substring(1)` yields `?` and the `&`-joined `key=value` items in insertion order |
| Fragments.SplitQueryPair | WooCommerceTrackingTester/WCTrackingUploader.cs:179 | an item has no `&`, and splitting it at its `=` gives back the encoded key and the encoded value |
| Fragments.ParseQueryString | WooCommerceTrackingTester/WCTrackingUploader.cs:178-180 | splitting a built query at `&` and `=` gives back every encoded pair, in insertion order |
| Fragments.QueryStringHasNoBraces | WooCommerceTrackingTester/WCTrackingUploader.cs:197 | a built query has no brace |
| Fragments.SslFragmentShape | WooCommerceTrackingTester/WCTrackingUploader.cs:171-182 | the TLS fragment is `?consumer_key=<key>&consumer_secret=<secret>`, each encoded, with no timestamp, nonce or signature |
| Fragments.SslFragmentReadBack | WooCommerceTrackingTester/WCTrackingUploader.cs:171-182 | parsing the TLS fragment gives exactly the two names with the encoded key and secret |
| Fragments.OAuthParams | WooCommerceTrackingTester/WCTrackingUploader.cs:188-192 | the five OAuth parameters are held in their insertion order |
| Fragments.OAuthParamsNormalized | WooCommerceTrackingTester/WCTrackingUploader.cs:212-222 | normalising them leaves names, timestamp, nonce, method and version as they are, and normalises only the consumer key |
| Fragments.SortedOAuthPairsAscending | WooCommerceTrackingTester/WCTrackingUploader.cs:232 | consumer key, nonce, signature method, timestamp and version are in strictly ascending key order |
| Fragments.OAuthParamsSorted | WooCommerceTrackingTester/WCTrackingUploader.cs:232 | the normalised OAuth parameters have distinct keys and sort into that order |
| Fragments.OAuthBaseStringShape | WooCommerceTrackingTester/WCTrackingUploader.cs:229-233 | the base string is the upper-case method, `&`, the encoded URL, `&`, then the five `k%3Dv` entries in sorted order joined by `%26` |
| Fragments.OAuthSignatureIsMacOfBaseString | WooCommerceTrackingTester/WCTrackingUploader.cs:193 | the `oauth_signature` value is the MAC under `secret&` of that base string |
| Fragments.SignatureNotSigned | WooCommerceTrackingTester/WCTrackingUploader.cs:193 | the signature is computed before `oauth_signature` is added, so it is not among the signed entries |
| Fragments.SignedFragmentShape | WooCommerceTrackingTester/WCTrackingUploader.cs:195-200 | the OAuth fragment lists the six parameters in insertion order, with the signature encoded |
| Fragments.SignedFragmentReadBack | WooCommerceTrackingTester/WCTrackingUploader.cs:193-200 | parsing the OAuth fragment gives the six names in order, and URL-decoding its last value recovers the signature |
| Fragments.SignedNamesUrlSafe | WooCommerceTrackingTester/WCTrackingUploader.cs:197 | every parameter name in the OAuth fragment is unreserved, so encoding leaves it as written |
| Responses.BuildFailureResponse | WooCommerceTrackingTester/WCTrackingUploader.cs:134-141 | a caught exception gives a default response that holds only the exception and does not succeed |
| Responses.BuildResponse | WooCommerceTrackingTester/WCTrackingUploader.cs:142-170 | the status is copied, success holds exactly for 200 and 201, and `message`, `code`, `tracking_id` and `date_shipped` are copied when the body has them |
| Responses.ReportsIsFunctional | WooCommerceTrackingTester/WCTrackingUploader.cs:142-170 | a reply determines its response |
| Responses.SucceededIgnoresBody | WooCommerceTrackingTester/WCTrackingUploader.cs:149-150 | success and code depend on the status alone, never on the body |
| Responses.ExceptionXorCompletion | WooCommerceTrackingTester/WCTrackingUploader.cs:134-170 | a response holds an exception exactly when the call threw, and then it has no code, message or tracking id and does not succeed |
| Responses.CreatedReportsTrackingId | WooCommerceTrackingTester/WCTrackingUploader.cs:149-161 | a 201 reply with a tracking id gives a successful response that carries the id and the store's code |
| Uploader.WCTrackingUploader.constructor | WooCommerceTrackingTester/WCTrackingUploader.cs:44-48 | the new uploader holds the secret, the consumer key and the normalised store URL |
| Uploader.WCTrackingUploader.ChangeClient | WooCommerceTrackingTester/WCTrackingUploader.cs:50-58 | the three fields are replaced, the store URL without a trailing slash |
| Uploader.WCTrackingUploader.GenerateSecurityFragmentsSSL | WooCommerceTrackingTester/WCTrackingUploader.cs:171-182 | the two indexer assignments and the loop build the TLS fragment of the current credentials |
| Uploader.WCTrackingUploader.GenerateSecurityUriFragments | WooCommerceTrackingTester/WCTrackingUploader.cs:185-201 | the five assignments, the signature over them, its assignment and the loop build the OAuth fragment of the current credentials, timestamp and nonce |
| Uploader.WCTrackingUploader.SecurityFragments | WooCommerceTrackingTester/WCTrackingUploader.cs:84-92 | a URL containing `https://` gets the TLS fragment and any other URL the OAuth fragment |
| Uploader.WCTrackingUploader.SubmitTrackingInfo | WooCommerceTrackingTester/WCTrackingUploader.cs:69-107 | a format error sends nothing and is reported as a caught exception; otherwise exactly one POST goes to the formatted URL plus its fragment, carrying the tracking record, and its reply is reported |
| Uploader.WCTrackingUploader.DeleteTrackingInfo | WooCommerceTrackingTester/WCTrackingUploader.cs:109-129 | a delete formats the create template, signs as POST and sends one DELETE with no body to the re-formatted URL; an error in either format sends nothing and is reported as a caught exception |
| Uploader.Dispatch | WooCommerceTrackingTester/WCTrackingUploader.cs:96-99 | a sent request is reported exactly as its reply |
| Uploader.FormatCreateUrl | WooCommerceTrackingTester/WCTrackingUploader.cs:83 | for a brace-free store URL the create format succeeds with the create URL, whatever the reference |
| Uploader.FormatDeleteUrl | WooCommerceTrackingTester/WCTrackingUploader.cs:115 | for a brace-free store URL the delete's format, with the extra tracking id, succeeds with the create URL of the same order |
| Uploader.BraceInStoreUrlFails | WooCommerceTrackingTester/WCTrackingUploader.cs:83 | after brace-free text in the store URL, a `{` followed by neither a digit nor a second `{` makes both formats fail; `http://{shop}` is one such URL |
| Uploader.StoreUrlFormatItem | WooCommerceTrackingTester/WCTrackingUploader.cs:83 | a store URL ending in `{0}`, with any spaces before the `}`, formats without error in both operations, with the order reference in place of the item |
| Uploader.AuthFragment | WooCommerceTrackingTester/WCTrackingUploader.cs:84-92 | the fragment chosen for a URL is a query string starting with `?` that contains no brace |
| Uploader.CreateUrlHasNoBraces | WooCommerceTrackingTester/WCTrackingUploader.cs:115 | a brace-free store URL and reference give a brace-free URL |
| Uploader.DeleteFormatKeepsUrl | WooCommerceTrackingTester/WCTrackingUploader.cs:121 | with a brace-free store URL and reference, the second format of the delete returns the signed URL unchanged |
| Uploader.DeleteFormatFailsOnFormatItem | WooCommerceTrackingTester/WCTrackingUploader.cs:121 | a reference `{0}` survives the first format but makes the argument-less second format fail, whatever the fragment |
| Uploader.SslParamsByPut | WooCommerceTrackingTester/WCTrackingUploader.cs:173-176 | assigning `consumer_key` and then `consumer_secret` to an empty dictionary gives the two TLS parameters in that order |
| Uploader.OAuthParamsByPut | WooCommerceTrackingTester/WCTrackingUploader.cs:187-192 | the five OAuth assignments give the five OAuth parameters in insertion order |
| Uploader.SignatureByPut | WooCommerceTrackingTester/WCTrackingUploader.cs:193 | assigning `oauth_signature` appends it as the sixth parameter |

## Left out

- `HttpClient`, `ResetHttpClient` and the client made by the constructor: the model does not include the transport. Sending, reading and parsing the body become the `send` input. Any exception they throw, including one from a field conversion in `BuildResponse`, is a `Threw` reply.
- The `Accept: application/json` header and the JSON serialisation of the tracking record: the request carries the record as a value.
- `Sha1` (`HMACSHA1`) and `Convert.ToBase64String`: these are the `mac` input.
- OAuth.GenerateSignature: its contract names the key and the base string that are signed, but not the digest, because HMAC-SHA1 is an input.
- `System.Random`: it is the `draws` input. Whether two calls produce different nonces is not modelled.
- The current time: the `timestamp` input is any non-empty digit text. The double arithmetic and `Math.Round` of the seconds since 1970 are not modelled.
- `OrderBy(x => x.Key)` compares with the current culture. The model sorts by ordinal octet order. For the five OAuth names, which share the `oauth_` prefix and then differ in a lower-case letter, the two orders agree.
- `EndsWith("/")` and `Contains("https://")` are culture-sensitive and ordinal respectively. The model treats both as exact octet matches.
- Strings are octet sequences rather than UTF-16. `HttpUtility.UrlEncode` encodes UTF-8, so the model is exact for one-octet characters only. `UrlDecode` handles `+` and `%xx`, but not `%uHHHH` or invalid UTF-8.
- Formatting.Format: it follows the .NET Framework 4 parser of composite format strings. The parser of later .NET versions accepts some inputs differently and is not modelled. Every argument is a non-null string. .NET renders a null argument as the empty text; the model has no null arguments.
- A null `storeUrl` would throw in `ChangeClient` and is not modelled: the URL is `Text`. Null tracking fields are not modelled either.
- `Response.Code` is a number rather than the `HttpStatusCode` enumeration. `DateShipped` is a tick count, with `DateTime.MinValue` as its default.
- The unused `lastUpdated` argument of `SubmitTrackingInfo` and the unused `orderId` argument of `DeleteTrackingInfo`: `lastUpdated` is dropped, and `orderId` is kept but unused.
- The `_getShipmentTrackingEndpoint` template is never used by the code, so it has no operation in the model.
- `Program.cs` is a console test driver and is not part of this model.
