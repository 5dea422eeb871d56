# Sellsy API client: OAuth PLAINTEXT signing and response interpretation

This project models the core of the Sellsy PHP client (`Teknoo\Sellsy\Client\Client`)
in Dafny and proves properties of the model. The client turns a remote procedure
call into a signed HTTP POST. The core has two parts.

- **Request signer** (`computeHeaders`, `encodeHeaders`). It builds the seven OAuth 1.0
  parameters in a fixed order. The signature follows the PLAINTEXT method of
  section 3.4.4 of RFC 5849: `rawurlencode(consumerSecret) & rawurlencode(tokenSecret)`.
  The parameters are written as one `Authorization: OAuth k="v", ...` line, and a
  second header line, `Expect:`, goes with it.
- **API invoker** (`requestApi`, `getInfos`). It stores the settings in `lastRequest`
  and clears `lastAnswer` before it dispatches. It then classifies what the transport
  returned. The result is a transport failure, an OAuth problem, a service error
  (with three rules for picking the message), or success. On success the decoded
  answer is kept in `lastAnswer`.

Modules:

- `Options` (`options.dfy`): the `Option` datatype.
- `PhpStrings` (`php_strings.dfy`): PHP byte strings (`seq<Byte>`, where each byte is a
  `char` below 256). It also models the built-ins the core uses: `strpos`
  (`Contains`), `implode` (`Join`), integer-to-string conversion (`DecimalString`)
  and the case-insensitive `preg_match('!^https!i', ...)` (`StartsWithCaseless`).
- `RawUrl` (`raw_url.dfy`): `rawurlencode`. This is percent-encoding as in section 2.1 of
  RFC 3986. Only the unreserved set of section 2.3 is left as is, and every other byte
  becomes `%XX` in upper-case hex. The module also has a percent-decoder, which is the
  encoder's partner.
- `OAuth` (`oauth.dfy`): the signature, the parameter list, the header line, the
  `encodeHeaders` loop, and a receiving header parser that serves as the partner.
- `Response` (`response.dfy`): the decoded JSON value. It gives PHP `empty()` and loose
  `'error' == $x` their exact meaning under the comparison rules of PHP 8, defines the transport result and the outcome,
  and holds the pure classification `Interpret`.
- `SellsyClient` (`client.dfy`): the `Client` class. Its fields are the endpoint, the four
  credentials, the injected date, `lastRequest` and `lastAnswer`. It has the setters and
  getters, `ComputeHeaders`, `RequestApi` and `GetInfos`.

Things outside the model become parameters:

- the wall-clock fallback (`clock`);
- the nonce `md5(timestamp + rand(0, 1000000))` (`nonce`, any string);
- `json_encode` (`encode`) and `json_decode` (`decode`);
- executing the cURL request (`send`, from the configured request to either a thrown
  exception or a body).

PHP `null` in `lastRequest` and `lastAnswer` is the JSON value `JNull`. It is also what
`json_decode` returns for a body that is not JSON.

The model follows the code as written, including where its behaviour is not what a
caller would expect:

- **TLS peer verification.** The code sets `CURLOPT_SSL_VERIFYPEER` to
  `!preg_match('!^https!i', $apiUrl)`, so verification is switched *off* for `https`
  URLs and on only for plain `http`. That is the opposite of what a caller would expect,
  since TLS is the case where verifying the peer matters. `SslVerifyPeer`,
  `HttpsDisablesPeerVerification` and `HttpKeepsPeerVerification` state the behaviour
  as written.
- **Error status.** The test is `!empty($answer->status) && 'error' == $answer->status`,
  with PHP's loose comparison. It holds for the string `"error"` and also for the
  boolean `true` (`IsErrorStatus`), not only for `status == "error"`.
- **Error message.** `!empty($answer->error->message)` skips a message `"0"`. The raw
  body is then used when `error` is an object (`ZeroMessageFallsBackToBody`). An `error`
  that is the empty string is still used, because `is_string` is tested without `empty`.
- **Undecodable bodies.** A response body that is neither JSON nor an OAuth problem
  decodes to `null`. That counts as success with a `null` answer
  (`UndecodableBodySucceeds`).

## Model

| member | source | states |
|---|---|---|
| `PhpStrings.ContainsIff` | src/Client/Client.php:372 | the `strpos(..) !== false` search succeeds exactly when the pattern occurs at some offset of the body |
| `PhpStrings.Contains` | src/Client/Client.php:372 | a found pattern is no longer than the body and each of its bytes occurs in the body |
| `PhpStrings.JoinShape` | src/Client/Client.php:282 | `implode` of no parts is empty; otherwise it starts with the first part, then the separator if more parts follow, and ends with the last part |
| `PhpStrings.DecimalString` | src/Client/Client.php:302 | the decimal string of an integer is non-empty, starts with `-` exactly for a negative value, and is otherwise all digits |
| `PhpStrings.StartsWithCaseless` | src/Client/Client.php:360 | a case-insensitive prefix match needs the prefix to fit, and an exact prefix always matches |
| `PhpStrings.DecimalRoundTrip` | src/Client/Client.php:302 | the decimal string PHP makes of the integer timestamp reads back as that timestamp, negative values included |
| `RawUrl.Encode` | src/Client/Client.php:279 | `rawurlencode` output is never shorter than its input and consists only of unreserved bytes and `%`, so it never holds `&`, `"`, `,` or `=` |
| `RawUrl.DecodeEncode` | src/Client/Client.php:279 | percent-decoding the output of `rawurlencode` gives back the input, for every byte string |
| `RawUrl.EncodeInjective` | src/Client/Client.php:297 | two values with the same encoding are equal |
| `RawUrl.EncodeUnreserved` | src/Client/Client.php:279 | a value made only of unreserved bytes (such as a decimal timestamp) goes onto the wire unchanged |
| `OAuth.Signature` | src/Client/Client.php:297 | the signature is one byte longer than the two encoded secrets together, and its only `&` sits right after the encoded consumer secret |
| `OAuth.SignatureSplits` | src/Client/Client.php:297 | the PLAINTEXT signature has exactly one `&`, right after the encoded consumer secret; the parts on either side are the two encoded secrets, and splitting and decoding returns both secrets |
| `OAuth.SignatureInjective` | src/Client/Client.php:297 | different secret pairs never give the same signature |
| `OAuth.EncodeHeaders` | src/Client/Client.php:275-283 | the `foreach` loop followed by `implode(', ', ..)` yields `"Authorization: OAuth "` then one `key="rawurlencode(value)"` per parameter, in order, separated by `", "` |
| `OAuth.Fields` | src/Client/Client.php:277-280 | one field per parameter, same count, the k-th field being the k-th parameter's `key="encoded value"` |
| `OAuth.ParseFieldOf` | src/Client/Client.php:279 | a receiver reading `key="encoded value"` off the front of a header recovers the key and the decoded value and leaves the rest untouched, provided the key holds no `=` |
| `OAuth.ParseFieldsOfJoin` | src/Client/Client.php:282 | for a non-empty parameter list whose names hold no `=`, the inverse parser reads the `", "`-joined fields back into the exact list |
| `OAuth.HeaderRoundTrip` | src/Client/Client.php:275-283 | for any parameter list whose names hold no `=`, the inverse parser `ParseHeader` reads back exactly the parameters, in order and decoded, from the header line, so no value can be confused with the delimiters |
| `OAuth.OAuthParams` | src/Client/Client.php:298-306 | the parameter names are `oauth_consumer_key`, `oauth_token`, `oauth_nonce`, `oauth_timestamp`, `oauth_signature_method`, `oauth_version`, `oauth_signature`, in that order, and none of them holds `=` |
| `OAuth.OAuthHeaderContents` | src/Client/Client.php:290-309 | parsing the header of a call gives the names `oauth_consumer_key`, `oauth_token`, `oauth_nonce`, `oauth_timestamp`, `oauth_signature_method`, `oauth_version`, `oauth_signature` in that order, with the consumer key, token and nonce, the given timestamp, `PLAINTEXT`, `1.0`, and a signature from which both secrets are recovered |
| `Response.IsEmpty` | src/Client/Client.php:379-380 | PHP `empty()` holds exactly for null, `false`, `0`, `""`, `"0"` and the empty array; never for an object |
| `Response.LooselyEqualsError` | src/Client/Client.php:379 | under PHP 8's rules, the loose `'error' == v` holds exactly for the string `"error"` and the boolean `true` |
| `Response.IsErrorStatus` | src/Client/Client.php:379 | `!empty(status) && 'error' == status` holds exactly when status is the string `"error"` or the boolean `true` |
| `Response.ErrorMessage` | src/Client/Client.php:380-388 | the message handed to `ErrorException` is `error.message`, `error` or the raw body, and is never an empty value unless it is a string |
| `Response.Interpret` | src/Client/Client.php:365-394 | a thrown exception keeps its message and code; a RequestFailure from a body carries that body with code 0; a service error needs a body whose decoding has an error status; a success needs a body and answers its decoding, which has no error status |
| `Response.SuccessIff` | src/Client/Client.php:365-394 | a call succeeds exactly when the transport returned a body, the body nowhere holds `oauth_problem`, and its decoding is not an error; the answer is then the decoded body, unchanged |
| `Response.ThrownIsRequestFailure` | src/Client/Client.php:365-369 | a transport exception becomes a RequestFailure with the same message and code |
| `Response.OAuthProblemIsRequestFailure` | src/Client/Client.php:372-374 | an `oauth_problem` at any offset makes the call a RequestFailure carrying the raw body (code 0), whatever the body would decode to |
| `Response.RequestFailureSources` | src/Client/Client.php:365-374 | a RequestFailure comes only from a thrown exception or an `oauth_problem` in the body |
| `Response.ServiceErrorMessage` | src/Client/Client.php:379-390 | a service error arises only for an error status; a non-empty `error.message` is used first, then `error` if it is a string, and the raw body only when neither applies |
| `Response.MissingByteNoOAuthProblem` | src/Client/Client.php:372 | a body lacking any one byte of `oauth_problem` cannot contain it |
| `Response.StructuredMessageExample` | src/Client/Client.php:380-382 | body `{"status":"error","error":{"message":"Bad thing"}}` gives a service error with message `Bad thing` |
| `Response.PlainErrorExample` | src/Client/Client.php:383-385 | body `{"status":"error","error":"Plain text error"}` gives a service error with message `Plain text error` |
| `Response.OkExample` | src/Client/Client.php:392-394 | body `{"status":"ok","response":{"foo":"bar"}}` succeeds with the decoded object unchanged |
| `Response.TokenRejectedExample` | src/Client/Client.php:372-374 | body `oauth_problem=token_rejected` is a RequestFailure carrying the body, although it is not JSON |
| `Response.UndecodableBodySucceeds` | src/Client/Client.php:376-394 | a body that decodes to null (not JSON) and holds no `oauth_problem` succeeds with a null answer |
| `Response.ZeroMessageFallsBackToBody` | src/Client/Client.php:380-388 | an error object whose message is `"0"` (empty to PHP) yields the raw body as the message |
| `SellsyClient.SslVerifyPeer` | src/Client/Client.php:360 | peer verification is off exactly when the URL has at least five bytes and they are each one of `h`/`H`, `t`/`T`, `t`/`T`, `p`/`P`, `s`/`S` |
| `SellsyClient.HttpsDisablesPeerVerification` | src/Client/Client.php:360 | any scheme that lower-cases to `https` (`https`, `HTTPS`, `Https`, …) followed by anything switches peer verification off |
| `SellsyClient.HttpKeepsPeerVerification` | src/Client/Client.php:360 | a plain `http:` URL keeps peer verification on |
| `SellsyClient.TimestampOf` | src/Client/Client.php:290-294 | the injected date's timestamp whenever one is set, the wall clock otherwise |
| `SellsyClient.Client.constructor` | src/Client/Client.php:128-146 | the endpoint, credentials and injected date are the given ones, defaulting to the empty string and to no date; `lastRequest` and `lastAnswer` start as null |
| `SellsyClient.Client.SetApiUrl` | src/Client/Client.php:155-160 | sets the API URL and nothing else, and returns the client itself |
| `SellsyClient.Client.GetApiUrl` | src/Client/Client.php:167-170 | returns the API URL last set |
| `SellsyClient.Client.SetOAuthAccessToken` | src/Client/Client.php:179-184 | sets the access token and nothing else, and returns the client itself |
| `SellsyClient.Client.GetOAuthAccessToken` | src/Client/Client.php:191-194 | returns the access token last set |
| `SellsyClient.Client.SetOAuthAccessTokenSecret` | src/Client/Client.php:203-208 | sets the access token secret and nothing else, and returns the client itself |
| `SellsyClient.Client.GetOAuthAccessTokenSecret` | src/Client/Client.php:215-218 | returns the access token secret last set |
| `SellsyClient.Client.SetOAuthConsumerKey` | src/Client/Client.php:227-232 | sets the consumer key and nothing else, and returns the client itself |
| `SellsyClient.Client.GetOAuthConsumerKey` | src/Client/Client.php:239-242 | returns the consumer key last set |
| `SellsyClient.Client.SetOAuthConsumerSecret` | src/Client/Client.php:251-256 | sets the consumer secret and nothing else, and returns the client itself |
| `SellsyClient.Client.GetOAuthConsumerSecret` | src/Client/Client.php:263-266 | returns the consumer secret last set |
| `SellsyClient.Client.GetLastRequest` | src/Client/Client.php:315-318 | returns the settings of the last call attempted (null before any) |
| `SellsyClient.Client.GetLastAnswer` | src/Client/Client.php:323-326 | returns the answer of the last call if it succeeded, null otherwise |
| `SellsyClient.Client.ComputeHeaders` | src/Client/Client.php:288-310 | exactly two header lines: the OAuth header for the current credentials, nonce and timestamp, and the literal `Expect:` |
| `SellsyClient.Client.RequestApi` | src/Client/Client.php:338-395 | afterwards `lastRequest` is the given settings, whatever the outcome; the request sent is a POST to the API URL with the computed headers, the fields `request=1`, `io_mode=json`, `do_in=json_encode(settings)`, and peer verification as `SslVerifyPeer`; the outcome is `Interpret` of what the transport returned; `lastAnswer` is the answer on success and null on every failure; nothing else changes |
| `SellsyClient.Client.RequestForContents` | src/Client/Client.php:343-362 | the request is a POST to the API URL that returns its body, with two header lines (one the inverse parser reads back into the client's OAuth parameters, then `Expect:`), POST fields `request=1`, `io_mode=json`, `do_in=json_encode(settings)`, and peer verification as `SslVerifyPeer` |
| `SellsyClient.Client.GetInfos` | src/Client/Client.php:400-408 | a call of `requestApi` with method `Infos.getInfos` and empty params, with the same guarantees |

## Left out

- The cURL request generator and its calls (`getRequest`, `setMethod`, `setUrl`, `setReturnValue`, `setOptionArray`, `execute`) are foreign I/O. The configured request is a `CurlRequest` value, and executing it is the `send` parameter.
- The collection generator and the resource accessors `accountData()` … `addresses()` (src/Client/Client.php:415-634) are left out. Each one only delegates to a collection generator that is not part of this model.
- `json_encode` and `json_decode` are primitives passed in as parameters. The model does not describe the JSON text they read or write. A PHP array such as the request settings is a `JObject`, so key order is not modelled.
- The nonce `md5(timestamp + rand(0, 1000000))` depends on hashing and randomness. It is an arbitrary string supplied by the caller.
- The `new \DateTime()` fallback reads the wall clock. It is the `clock` parameter. The injected `\DateTime` is represented by its Unix timestamp.
- JSON numbers with a fraction (PHP floats) are not in the `Json` datatype. Floating point is out of scope, and `empty(0.0)` is therefore not modelled.
- `Response.Interpret`: the `ErrorException` carries the JSON value it was given. PHP's coercion of a non-string message to a string is not modelled. The exception's code (always 0) is not modelled either.
- `Response.LooselyEqualsError`: follows PHP 8. Before PHP 8, `'error' == 0` also held, because the non-numeric string was converted to 0. The `!empty` guard in `IsErrorStatus` rejects a status of 0 before the comparison, so the status test is the same under both rules.
- `Response.Interpret`: when `error.message` is a non-empty array or object, the model returns a ServiceError carrying that value. PHP's `Exception` constructor refuses a message that is not a string, so the call would end in a `TypeError` instead. The model assumes the `ErrorException` class accepts any value; that class is not part of this model.
- `Response.Interpret`: `Thrown` stands only for an `\Exception` raised by `execute()`, which `catch (\Exception $e)` turns into a RequestFailure. An `\Error` escapes unwrapped, after `lastRequest` and `lastAnswer` have been written; the model does not have that path.
- The injected date is aliased: PHP keeps a reference to the caller's `\DateTime` and clones it only when a call is made. A change the caller makes to that object later moves the timestamp of later calls. The model stores the timestamp as a value, so it does not capture this aliasing.
- `Response.Interpret`: for a RequestFailure built from a transport exception, only the message and code are kept. The chained previous exception is not modelled.
- The tests under tests/Sellsy/Transport only check PSR-7 instance types against mocks of a transport that is not part of this model, so they add no behaviour.
- Concurrency is not modelled. Two logical calls that share one client would overwrite each other's `lastRequest` and `lastAnswer`, and the model only covers one call at a time.
