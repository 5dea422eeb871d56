/**
 * How `requestApi` reads what the transport hands back: a thrown
 * exception, an OAuth problem report, a service error, or the answer.
 */
module Response {
  import opened PhpStrings

  /** A value as `json_decode` returns it (objects become `stdClass`, here a map of properties). */
  datatype Json =
    | JNull
    | JBool(b: bool)
    | JInt(i: int)
    | JString(s: PhpString)
    | JArray(items: seq<Json>)
    | JObject(members: map<PhpString, Json>)

  /** What executing the request gave: an exception (message and code), or the raw response body. */
  datatype TransportResult = Thrown(message: PhpString, code: int) | Body(raw: PhpString)

  /**
   * The outcome of one call: the decoded answer, a `RequestFailureException`
   * (message and code), or an `ErrorException` carrying the value it was given.
   */
  datatype Outcome =
    | Success(answer: Json)
    | RequestFailure(reason: PhpString, code: int)
    | ServiceError(message: Json)

  const OAuthProblem: PhpString := "oauth_problem"

  /** `$v->name`: the property of an object, and null (with a warning) for anything else. */
  function Prop(v: Json, name: PhpString): Json
  {
    if v.JObject? && name in v.members then v.members[name] else JNull
  }

  /** PHP's `empty()`: null, false, 0, "", "0" and the empty array; an object never is. */
  predicate IsEmpty(v: Json)
    ensures IsEmpty(v) <==> v in {JNull, JBool(false), JInt(0), JString(""), JString("0"), JArray([])}
  {
    match v
    case JNull => true
    case JBool(b) => !b
    case JInt(i) => i == 0
    case JString(s) => s == "" || s == "0"
    case JArray(items) => items == []
    case JObject(_) => false
  }

  /**
   * PHP 8's loose `'error' == v`: string comparison against a string, and
   * `(bool)'error'`, that is true, against a boolean. Against an integer,
   * `'error'` is not numeric, so PHP 8 compares the integer as a string and
   * it never matches; null, arrays and objects never match either. (Before
   * PHP 8, `'error'` was converted to 0 instead, so `'error' == 0` held;
   * the `!empty` guard of `IsErrorStatus` rejects 0 first, so the status
   * test is the same under both rules.)
   */
  predicate LooselyEqualsError(v: Json)
    ensures LooselyEqualsError(v) <==> v == JString("error") || v == JBool(true)
  {
    match v
    case JString(s) => s == "error"
    case JBool(b) => b
    case _ => false
  }

  /**
   * `!empty($answer->status) && 'error' == $answer->status`: an answer is
   * an error exactly when its status is the string "error" or the boolean true.
   */
  predicate IsErrorStatus(answer: Json)
    ensures IsErrorStatus(answer) <==>
            Prop(answer, "status") == JString("error") || Prop(answer, "status") == JBool(true)
  {
    var status := Prop(answer, "status");
    !IsEmpty(status) && LooselyEqualsError(status)
  }

  /**
   * The value handed to `ErrorException` for an answer whose status is
   * "error": the error's message, the error itself or the raw body, and
   * never an empty value other than a string.
   */
  function ErrorMessage(raw: PhpString, answer: Json): (m: Json)
    ensures m == Prop(Prop(answer, "error"), "message") || m == Prop(answer, "error") || m == JString(raw)
    ensures !IsEmpty(m) || m.JString?
  {
    var error := Prop(answer, "error");
    var message := Prop(error, "message");
    if !IsEmpty(message) then message
    else if error.JString? then error
    else JString(raw)
  }

  /** The branches of `requestApi` after the request has been executed. */
  function Interpret(result: TransportResult, decode: PhpString -> Json): (r: Outcome)
    ensures result.Thrown? ==> r == RequestFailure(result.message, result.code)
    ensures result.Body? && r.RequestFailure? ==> r == RequestFailure(result.raw, 0)
    ensures r.ServiceError? ==> result.Body? && IsErrorStatus(decode(result.raw))
    ensures r.Success? ==> result.Body? && r.answer == decode(result.raw) && !IsErrorStatus(r.answer)
  {
    match result
    case Thrown(message, code) => RequestFailure(message, code)
    case Body(raw) =>
      if Contains(raw, OAuthProblem) then RequestFailure(raw, 0)
      else
        var answer := decode(raw);
        if IsErrorStatus(answer) then ServiceError(ErrorMessage(raw, answer))
        else Success(answer)
  }

  /**
   * A call succeeds exactly when the transport returned a body, the body
   * nowhere holds "oauth_problem" and its decoding is not an error; the
   * answer is then the decoded body, unchanged.
   */
  lemma SuccessIff(result: TransportResult, decode: PhpString -> Json)
    ensures Interpret(result, decode).Success? <==>
            && result.Body?
            && !(exists i :: OccursAt(result.raw, OAuthProblem, i))
            && !IsErrorStatus(decode(result.raw))
    ensures Interpret(result, decode).Success? ==> Interpret(result, decode).answer == decode(result.raw)
  {
    if result.Body? {
      ContainsIff(result.raw, OAuthProblem);
    }
  }

  /** A thrown exception becomes a RequestFailure with the same message and code. */
  lemma ThrownIsRequestFailure(message: PhpString, code: int, decode: PhpString -> Json)
    ensures Interpret(Thrown(message, code), decode) == RequestFailure(message, code)
  {
  }

  /**
   * An "oauth_problem" anywhere in the body makes the call a RequestFailure
   * carrying the body, whatever the body would decode to.
   */
  lemma OAuthProblemIsRequestFailure(raw: PhpString, i: nat, decode: PhpString -> Json)
    requires OccursAt(raw, OAuthProblem, i)
    ensures Interpret(Body(raw), decode) == RequestFailure(raw, 0)
  {
    OccursAtContains(raw, OAuthProblem, i);
  }

  /**
   * Failure is the only way a RequestFailure arises: from an exception or an
   * OAuth problem, never from a decoded answer.
   */
  lemma RequestFailureSources(result: TransportResult, decode: PhpString -> Json)
    requires Interpret(result, decode).RequestFailure?
    ensures result.Thrown? || exists i :: OccursAt(result.raw, OAuthProblem, i)
  {
    if result.Body? {
      ContainsIff(result.raw, OAuthProblem);
    }
  }

  /**
   * The message of a service error: a non-empty `error.message` first, then
   * a string `error`, and the raw body only when neither is there.
   */
  lemma ServiceErrorMessage(raw: PhpString, decode: PhpString -> Json)
    requires Interpret(Body(raw), decode).ServiceError?
    ensures var answer := decode(raw);
            var error := Prop(answer, "error");
            var message := Prop(error, "message");
            var chosen := Interpret(Body(raw), decode).message;
            && IsErrorStatus(answer)
            && (!IsEmpty(message) ==> chosen == message)
            && (IsEmpty(message) && error.JString? ==> chosen == error)
            && (IsEmpty(message) && !error.JString? ==> chosen == JString(raw))
  {
  }

  /** A body without some byte of "oauth_problem" cannot contain it. */
  lemma MissingByteNoOAuthProblem(raw: PhpString, c: Byte)
    requires c in OAuthProblem
    requires forall k :: 0 <= k < |raw| ==> raw[k] != c
    ensures !Contains(raw, OAuthProblem)
  {
    ContainsIff(raw, OAuthProblem);
  }

  // The four kinds of response body, on concrete examples.

  const BadThingBody: PhpString := "{\"status\":\"error\"," + "\"error\":{\"message\":" + "\"Bad thing\"}}"
  const PlainErrorBody: PhpString := "{\"status\":\"error\"," + "\"error\":" + "\"Plain text error\"}"
  const OkBody: PhpString := "{\"status\":\"ok\"," + "\"response\":" + "{\"foo\":\"bar\"}}"
  const TokenRejectedBody: PhpString := "oauth_problem=token_rejected"

  /** A structured error message is what the ErrorException carries. */
  lemma StructuredMessageExample(decode: PhpString -> Json)
    requires decode(BadThingBody) ==
             JObject(map["status" := JString("error"), "error" := JObject(map["message" := JString("Bad thing")])])
    ensures Interpret(Body(BadThingBody), decode) == ServiceError(JString("Bad thing"))
  {
    MissingByteNoOAuthProblem(BadThingBody, '_');
  }

  /** An error given as a plain string is what the ErrorException carries. */
  lemma PlainErrorExample(decode: PhpString -> Json)
    requires decode(PlainErrorBody) == JObject(map["status" := JString("error"), "error" := JString("Plain text error")])
    ensures Interpret(Body(PlainErrorBody), decode) == ServiceError(JString("Plain text error"))
  {
    MissingByteNoOAuthProblem(PlainErrorBody, '_');
  }

  /** An "ok" answer is returned as decoded. */
  lemma OkExample(decode: PhpString -> Json)
    requires decode(OkBody) == JObject(map["status" := JString("ok"), "response" := JObject(map["foo" := JString("bar")])])
    ensures Interpret(Body(OkBody), decode) == Success(decode(OkBody))
  {
    MissingByteNoOAuthProblem(OkBody, '_');
  }

  /** A rejected token is a RequestFailure carrying the body, although the body is not JSON. */
  lemma TokenRejectedExample(decode: PhpString -> Json)
    ensures Interpret(Body(TokenRejectedBody), decode) == RequestFailure(TokenRejectedBody, 0)
  {
    assert TokenRejectedBody[..|OAuthProblem|] == OAuthProblem;
  }

  /** A body that is not JSON decodes to null, which has no status: the call succeeds with null. */
  lemma UndecodableBodySucceeds(raw: PhpString, decode: PhpString -> Json)
    requires !Contains(raw, OAuthProblem)
    requires decode(raw) == JNull
    ensures Interpret(Body(raw), decode) == Success(JNull)
  {
  }

  /** `empty("0")` holds, so an error message "0" is passed over and the raw body is used instead. */
  lemma ZeroMessageFallsBackToBody(raw: PhpString, decode: PhpString -> Json)
    requires !Contains(raw, OAuthProblem)
    requires decode(raw) == JObject(map["status" := JString("error"), "error" := JObject(map["message" := JString("0")])])
    ensures Interpret(Body(raw), decode) == ServiceError(JString(raw))
  {
  }
}
