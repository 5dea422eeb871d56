/**
 * The Sellsy API client: its credentials and endpoint, the debug record
 * of the last call, and `requestApi`, which signs, dispatches and
 * interprets one call.
 */
module SellsyClient {
  import opened Options
  import opened PhpStrings
  import opened OAuth
  import opened Response

  /** The POST fields of a call: `request=1`, `io_mode=json` and the JSON-encoded settings. */
  datatype PostFields = PostFields(request: int, ioMode: PhpString, doIn: PhpString)

  /** The cURL request as `requestApi` configures it before executing it. */
  datatype CurlRequest = CurlRequest(
    httpMethod: PhpString,
    url: PhpString,
    returnValue: bool,
    httpHeaders: seq<PhpString>,
    postFields: PostFields,
    sslVerifyPeer: bool)

  const ExpectHeader: PhpString := "Expect:"

  /** The settings `getInfos` sends: method "Infos.getInfos" with empty params. */
  const InfosSettings: Json := JObject(map["method" := JString("Infos.getInfos"), "params" := JArray([])])

  /** `CURLOPT_SSL_VERIFYPEER => !preg_match('!^https!i', $apiUrl)`, as written. */
  function SslVerifyPeer(apiUrl: PhpString): (verify: bool)
    ensures !verify <==> && |apiUrl| >= 5
                         && apiUrl[0] in "hH" && apiUrl[1] in "tT" && apiUrl[2] in "tT"
                         && apiUrl[3] in "pP" && apiUrl[4] in "sS"
  {
    !StartsWithCaseless(apiUrl, "https")
  }

  /**
   * As written, peer verification is switched off for every URL that starts
   * with "https" in any mix of upper and lower case ...
   */
  lemma HttpsDisablesPeerVerification(scheme: PhpString, rest: PhpString)
    requires |scheme| == 5 && forall i :: 0 <= i < 5 ==> AsciiLower(scheme[i]) == "https"[i]
    ensures !SslVerifyPeer(scheme + rest)
  {
    assert forall i :: 0 <= i < 5 ==> (scheme + rest)[i] == scheme[i];
  }

  /** ... and left on for a plain "http:" URL. */
  lemma HttpKeepsPeerVerification(rest: PhpString)
    ensures SslVerifyPeer("http:" + rest)
  {
    assert ("http:" + rest)[4] == ':';
  }

  /** The injected date when there is one, the wall clock otherwise. */
  function TimestampOf(now: Option<int>, clock: int): (t: int)
    ensures now.Some? ==> t == now.value
    ensures now.None? ==> t == clock
  {
    match now
    case Some(t) => t
    case None => clock
  }

  class Client {
    var apiUrl: PhpString
    var oauthAccessToken: PhpString
    var oauthAccessTokenSecret: PhpString
    var oauthConsumerKey: PhpString
    var oauthConsumerSecret: PhpString
    /** The Unix timestamp of the injected date, if any. */
    var now: Option<int>
    /** The settings of the last call attempted; null before any call. */
    var lastRequest: Json
    /** The answer of the last call if it succeeded; null otherwise. */
    var lastAnswer: Json

    constructor (apiUrl: PhpString := "", oauthAccessToken: PhpString := "", oauthAccessTokenSecret: PhpString := "",
                 oauthConsumerKey: PhpString := "", oauthConsumerSecret: PhpString := "", now: Option<int> := None)
      ensures this.apiUrl == apiUrl && this.now == now
      ensures this.oauthAccessToken == oauthAccessToken && this.oauthAccessTokenSecret == oauthAccessTokenSecret
      ensures this.oauthConsumerKey == oauthConsumerKey && this.oauthConsumerSecret == oauthConsumerSecret
      ensures lastRequest == JNull && lastAnswer == JNull
    {
      this.apiUrl := apiUrl;
      this.oauthAccessToken := oauthAccessToken;
      this.oauthAccessTokenSecret := oauthAccessTokenSecret;
      this.oauthConsumerKey := oauthConsumerKey;
      this.oauthConsumerSecret := oauthConsumerSecret;
      this.now := now;
      lastRequest := JNull;
      lastAnswer := JNull;
    }

    method SetApiUrl(apiUrl: PhpString) returns (self: Client)
      modifies this`apiUrl
      ensures this.apiUrl == apiUrl && self == this
    {
      this.apiUrl := apiUrl;
      self := this;
    }

    method GetApiUrl() returns (apiUrl: PhpString)
      ensures apiUrl == this.apiUrl
    {
      apiUrl := this.apiUrl;
    }

    method SetOAuthAccessToken(oauthAccessToken: PhpString) returns (self: Client)
      modifies this`oauthAccessToken
      ensures this.oauthAccessToken == oauthAccessToken && self == this
    {
      this.oauthAccessToken := oauthAccessToken;
      self := this;
    }

    method GetOAuthAccessToken() returns (oauthAccessToken: PhpString)
      ensures oauthAccessToken == this.oauthAccessToken
    {
      oauthAccessToken := this.oauthAccessToken;
    }

    method SetOAuthAccessTokenSecret(oauthAccessTokenSecret: PhpString) returns (self: Client)
      modifies this`oauthAccessTokenSecret
      ensures this.oauthAccessTokenSecret == oauthAccessTokenSecret && self == this
    {
      this.oauthAccessTokenSecret := oauthAccessTokenSecret;
      self := this;
    }

    method GetOAuthAccessTokenSecret() returns (oauthAccessTokenSecret: PhpString)
      ensures oauthAccessTokenSecret == this.oauthAccessTokenSecret
    {
      oauthAccessTokenSecret := this.oauthAccessTokenSecret;
    }

    method SetOAuthConsumerKey(oauthConsumerKey: PhpString) returns (self: Client)
      modifies this`oauthConsumerKey
      ensures this.oauthConsumerKey == oauthConsumerKey && self == this
    {
      this.oauthConsumerKey := oauthConsumerKey;
      self := this;
    }

    method GetOAuthConsumerKey() returns (oauthConsumerKey: PhpString)
      ensures oauthConsumerKey == this.oauthConsumerKey
    {
      oauthConsumerKey := this.oauthConsumerKey;
    }

    method SetOAuthConsumerSecret(oauthConsumerSecret: PhpString) returns (self: Client)
      modifies this`oauthConsumerSecret
      ensures this.oauthConsumerSecret == oauthConsumerSecret && self == this
    {
      this.oauthConsumerSecret := oauthConsumerSecret;
      self := this;
    }

    method GetOAuthConsumerSecret() returns (oauthConsumerSecret: PhpString)
      ensures oauthConsumerSecret == this.oauthConsumerSecret
    {
      oauthConsumerSecret := this.oauthConsumerSecret;
    }

    method GetLastRequest() returns (request: Json)
      ensures request == lastRequest
    {
      request := lastRequest;
    }

    method GetLastAnswer() returns (answer: Json)
      ensures answer == lastAnswer
    {
      answer := lastAnswer;
    }

    /** The header parameters for a call made at wall-clock time `clock` with nonce `nonce`. */
    function Params(clock: int, nonce: PhpString): seq<Param>
      reads this
    {
      OAuthParams(oauthConsumerKey, oauthAccessToken, nonce, TimestampOf(now, clock),
                  oauthConsumerSecret, oauthAccessTokenSecret)
    }

    /**
     * `computeHeaders`: exactly two header lines, the OAuth authorization
     * and an empty `Expect:`.
     */
    method ComputeHeaders(clock: int, nonce: PhpString) returns (headers: seq<PhpString>)
      ensures |headers| == 2
      ensures headers[0] == AuthorizationHeader(Params(clock, nonce))
      ensures headers[1] == ExpectHeader
    {
      var timestamp := TimestampOf(now, clock);
      var oauthParams := OAuthParams(oauthConsumerKey, oauthAccessToken, nonce, timestamp,
                                     oauthConsumerSecret, oauthAccessTokenSecret);
      var authorization := EncodeHeaders(oauthParams);
      headers := [authorization, ExpectHeader];
    }

    /** The request `requestApi` hands to the transport. */
    function RequestFor(requestSettings: Json, clock: int, nonce: PhpString, encode: Json -> PhpString): CurlRequest
      reads this
    {
      CurlRequest("POST", apiUrl, true, [AuthorizationHeader(Params(clock, nonce)), ExpectHeader],
                  PostFields(1, "json", encode(requestSettings)), SslVerifyPeer(apiUrl))
    }

    /**
     * The request of a call is a POST to the API URL asking for the response
     * body, with two header lines; the first is one a receiver parses back
     * into this client's OAuth parameters, the second is `Expect:`. The POST
     * fields carry the JSON-encoded settings, and peer verification is as
     * `SslVerifyPeer` says for the API URL.
     */
    lemma RequestForContents(requestSettings: Json, clock: int, nonce: PhpString, encode: Json -> PhpString)
      ensures var r := RequestFor(requestSettings, clock, nonce, encode);
              && r.httpMethod == "POST" && r.url == apiUrl && r.returnValue
              && |r.httpHeaders| == 2 && r.httpHeaders[1] == ExpectHeader
              && ParseHeader(r.httpHeaders[0]) == Some(Params(clock, nonce))
              && r.postFields == PostFields(1, "json", encode(requestSettings))
              && r.sslVerifyPeer == SslVerifyPeer(apiUrl)
    {
      HeaderRoundTrip(Params(clock, nonce));
    }

    /**
     * `requestApi`. The settings are recorded and the last answer cleared
     * before dispatch, whatever follows; the last answer is set again only
     * on success. `encode` stands for `json_encode`, `send` for executing
     * the cURL request, `decode` for `json_decode`.
     */
    method RequestApi(requestSettings: Json, clock: int, nonce: PhpString, encode: Json -> PhpString,
                      send: CurlRequest -> TransportResult, decode: PhpString -> Json)
      returns (outcome: Outcome)
      modifies this`lastRequest, this`lastAnswer
      ensures lastRequest == requestSettings
      ensures outcome == Interpret(send(RequestFor(requestSettings, clock, nonce, encode)), decode)
      ensures lastAnswer == if outcome.Success? then outcome.answer else JNull
    {
      lastRequest := requestSettings;
      lastAnswer := JNull;
      var encodedRequest := PostFields(1, "json", encode(requestSettings));
      var headers := ComputeHeaders(clock, nonce);
      assert headers == [AuthorizationHeader(Params(clock, nonce)), ExpectHeader];
      var request := CurlRequest("POST", apiUrl, true, headers, encodedRequest, SslVerifyPeer(apiUrl));
      assert request == RequestFor(requestSettings, clock, nonce, encode);
      var result := send(request);
      match result {
        case Thrown(message, code) =>
          return RequestFailure(message, code);
        case Body(raw) =>
          if Contains(raw, OAuthProblem) {
            return RequestFailure(raw, 0);
          }
          var answer := decode(raw);
          if IsErrorStatus(answer) {
            var error := Prop(answer, "error");
            var message := Prop(error, "message");
            if !IsEmpty(message) {
              return ServiceError(message);
            } else if error.JString? {
              return ServiceError(error);
            } else {
              return ServiceError(JString(raw));
            }
          }
          lastAnswer := answer;
          return Success(lastAnswer);
      }
    }

    /** `getInfos`: a call of "Infos.getInfos" with empty params. */
    method GetInfos(clock: int, nonce: PhpString, encode: Json -> PhpString,
                    send: CurlRequest -> TransportResult, decode: PhpString -> Json)
      returns (outcome: Outcome)
      modifies this`lastRequest, this`lastAnswer
      ensures lastRequest == InfosSettings
      ensures outcome == Interpret(send(RequestFor(InfosSettings, clock, nonce, encode)), decode)
      ensures lastAnswer == if outcome.Success? then outcome.answer else JNull
    {
      outcome := RequestApi(InfosSettings, clock, nonce, encode, send, decode);
    }
  }
}
