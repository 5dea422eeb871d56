/**
 * The OAuth 1.0 PLAINTEXT authentication header the client sends with
 * every call (section 3.4.4 of RFC 5849 for the signature, section 3.5.1
 * for the `Authorization: OAuth` header form).
 */
module OAuth {
  import opened Options
  import opened PhpStrings
  import opened RawUrl

  /** One header parameter: its name and its (unencoded) value. */
  type Param = (PhpString, PhpString)

  const ConsumerKeyName: PhpString := "oauth_consumer_key"
  const TokenName: PhpString := "oauth_token"
  const NonceName: PhpString := "oauth_nonce"
  const TimestampName: PhpString := "oauth_timestamp"
  const SignatureMethodName: PhpString := "oauth_signature_method"
  const VersionName: PhpString := "oauth_version"
  const SignatureName: PhpString := "oauth_signature"

  const AuthorizationPrefix: PhpString := "Authorization: OAuth "
  const FieldSeparator: PhpString := ", "

  /**
   * The PLAINTEXT signature: both secrets, each percent-encoded, joined by
   * "&"; that "&" is the only one, as the encoding never produces one.
   */
  function Signature(consumerSecret: PhpString, tokenSecret: PhpString): (r: PhpString)
    ensures |r| == |Encode(consumerSecret)| + 1 + |Encode(tokenSecret)|
    ensures forall i :: 0 <= i < |r| ==> (r[i] == '&' <==> i == |Encode(consumerSecret)|)
  {
    Encode(consumerSecret) + "&" + Encode(tokenSecret)
  }

  /** How a receiver takes a PLAINTEXT signature apart: split at the first "&", decode both halves. */
  function SplitSignature(signature: PhpString): Option<(PhpString, PhpString)>
  {
    var i := Find(signature, '&');
    if i == |signature| then None
    else match (Decode(signature[..i]), Decode(signature[i + 1..]))
      case (Some(consumerSecret), Some(tokenSecret)) => Some((consumerSecret, tokenSecret))
      case _ => None
  }

  /**
   * The signature holds exactly one "&", right after the encoded consumer
   * secret, so splitting there gives back both secrets.
   */
  lemma SignatureSplits(consumerSecret: PhpString, tokenSecret: PhpString)
    ensures var signature := Signature(consumerSecret, tokenSecret);
            var n := |Encode(consumerSecret)|;
            && n < |signature|
            && signature[..n] == Encode(consumerSecret)
            && signature[n + 1..] == Encode(tokenSecret)
            && (forall i :: 0 <= i < |signature| ==> (signature[i] == '&' <==> i == n))
            && SplitSignature(signature) == Some((consumerSecret, tokenSecret))
  {
    var a, b := Encode(consumerSecret), Encode(tokenSecret);
    var signature := Signature(consumerSecret, tokenSecret);
    assert signature == a + ['&'] + b;
    assert forall i :: 0 <= i < |a| ==> a[i] != '&';
    FindAfter(a, '&', b);
    assert signature[..|a|] == a;
    assert signature[|a| + 1..] == b;
    DecodeEncode(consumerSecret);
    DecodeEncode(tokenSecret);
  }

  /** Distinct secret pairs never share a signature. */
  lemma SignatureInjective(cs1: PhpString, ts1: PhpString, cs2: PhpString, ts2: PhpString)
    requires Signature(cs1, ts1) == Signature(cs2, ts2)
    ensures cs1 == cs2 && ts1 == ts2
  {
    SignatureSplits(cs1, ts1);
    SignatureSplits(cs2, ts2);
  }

  /**
   * The ordered parameter map of `computeHeaders`; the nonce is whatever
   * string the caller drew and the timestamp is rendered in decimal.
   */
  function OAuthParams(consumerKey: PhpString, token: PhpString, nonce: PhpString, timestamp: int,
                       consumerSecret: PhpString, tokenSecret: PhpString): (r: seq<Param>)
    ensures Keys(r) == [ConsumerKeyName, TokenName, NonceName, TimestampName,
                        SignatureMethodName, VersionName, SignatureName]
    ensures KeysWellFormed(r)
  {
    assert NoEquals(ConsumerKeyName) && NoEquals(TokenName) && NoEquals(NonceName) && NoEquals(TimestampName);
    assert NoEquals(SignatureMethodName) && NoEquals(VersionName) && NoEquals(SignatureName);
    [ (ConsumerKeyName, consumerKey),
      (TokenName, token),
      (NonceName, nonce),
      (TimestampName, DecimalString(timestamp)),
      (SignatureMethodName, "PLAINTEXT"),
      (VersionName, "1.0"),
      (SignatureName, Signature(consumerSecret, tokenSecret)) ]
  }

  /** `key="rawurlencode(value)"`. */
  function Field(key: PhpString, value: PhpString): PhpString
  {
    key + "=\"" + Encode(value) + "\""
  }

  /** One field per parameter, in order. */
  function Fields(params: seq<Param>): (r: seq<PhpString>)
    ensures |r| == |params|
    ensures forall k :: 0 <= k < |params| ==> r[k] == Field(params[k].0, params[k].1)
    decreases |params|
  {
    if params == [] then [] else [Field(params[0].0, params[0].1)] + Fields(params[1..])
  }

  /** The header line `encodeHeaders` produces for `params`. */
  function AuthorizationHeader(params: seq<Param>): PhpString
  {
    AuthorizationPrefix + Join(Fields(params), FieldSeparator)
  }

  function Keys(params: seq<Param>): seq<PhpString>
  {
    seq(|params|, i requires 0 <= i < |params| => params[i].0)
  }

  /** `encodeHeaders`: one field per parameter, in order, then `implode(', ', ...)`. */
  method EncodeHeaders(oauth: seq<Param>) returns (header: PhpString)
    ensures header == AuthorizationHeader(oauth)
  {
    var values: seq<PhpString> := [];
    var i := 0;
    while i < |oauth|
      invariant 0 <= i <= |oauth|
      invariant |values| == i
      invariant forall k :: 0 <= k < i ==> values[k] == Field(oauth[k].0, oauth[k].1)
    {
      var (key, value) := oauth[i];
      values := values + [Field(key, value)];
      i := i + 1;
    }
    assert values == Fields(oauth);
    header := AuthorizationPrefix + Join(values, FieldSeparator);
  }

  // A receiving header parser, the partner of AuthorizationHeader.

  predicate NoEquals(key: PhpString)
  {
    forall j :: 0 <= j < |key| ==> key[j] != '='
  }

  predicate KeysWellFormed(params: seq<Param>)
  {
    forall i :: 0 <= i < |params| ==> NoEquals(params[i].0)
  }

  /** Reads `key="value"` off the front of `s`, decoding the value; returns the rest. */
  function ParseField(s: PhpString): (r: Option<(Param, PhpString)>)
    ensures r.Some? ==> |r.value.1| < |s|
  {
    var i := Find(s, '=');
    if i + 1 >= |s| || s[i + 1] != '"' then None
    else
      var t := s[i + 2..];
      var j := Find(t, '"');
      if j == |t| then None
      else match Decode(t[..j])
        case Some(value) => Some(((s[..i], value), t[j + 1..]))
        case None => None
  }

  /** Reads one or more fields separated by ", ". */
  function ParseFields(s: PhpString): Option<seq<Param>>
    decreases |s|
  {
    match ParseField(s)
    case None => None
    case Some((param, rest)) =>
      if rest == [] then Some([param])
      else if |rest| >= 2 && rest[..2] == FieldSeparator then
        match ParseFields(rest[2..])
        case Some(params) => Some([param] + params)
        case None => None
      else None
  }

  /**
   * The inverse of `AuthorizationHeader`: the exact prefix, then fields
   * separated by exactly ", ". It is narrower than a general receiver of
   * section 3.5.1 of RFC 5849 (no `realm`, no optional whitespace).
   */
  function ParseHeader(header: PhpString): Option<seq<Param>>
  {
    var n := |AuthorizationPrefix|;
    if |header| < n || header[..n] != AuthorizationPrefix then None
    else if |header| == n then Some([])
    else ParseFields(header[n..])
  }

  /** The cut points ParseField finds in `key="e"rest`. */
  lemma FieldCuts(key: PhpString, e: PhpString, rest: PhpString)
    requires NoEquals(key)
    requires forall k :: 0 <= k < |e| ==> e[k] != '"'
    ensures var s := key + "=\"" + e + "\"" + rest;
            var t := s[|key| + 2..];
            && Find(s, '=') == |key| && s[|key| + 1] == '"' && s[..|key|] == key
            && Find(t, '"') == |e| && t[..|e|] == e && t[|e| + 1..] == rest
  {
    var s := key + "=\"" + e + "\"" + rest;
    var after := ['"'] + e + ['"'] + rest;
    assert s == key + ['='] + after;
    FindAfter(key, '=', after);
    var t := s[|key| + 2..];
    assert t == e + ['"'] + rest;
    FindAfter(e, '"', rest);
  }

  lemma ParseFieldOf(key: PhpString, value: PhpString, rest: PhpString)
    requires NoEquals(key)
    ensures ParseField(Field(key, value) + rest) == Some(((key, value), rest))
  {
    var e := Encode(value);
    assert forall k :: 0 <= k < |e| ==> e[k] != '"';
    FieldCuts(key, e, rest);
    DecodeEncode(value);
  }

  /** A field followed by ", " and a parsable list parses as one longer list. */
  lemma ParseFieldsCons(s: PhpString, param: Param, tail: PhpString, params: seq<Param>)
    requires ParseField(s) == Some((param, FieldSeparator + tail))
    requires ParseFields(tail) == Some(params)
    ensures ParseFields(s) == Some([param] + params)
  {
    var rest := FieldSeparator + tail;
    assert rest != [] && rest[..2] == FieldSeparator && rest[2..] == tail;
  }

  /** A single field parses with nothing left over. */
  lemma ParseSingleJoin(param: Param)
    requires NoEquals(param.0)
    ensures ParseFields(Join(Fields([param]), FieldSeparator)) == Some([param])
  {
    ParseFieldOf(param.0, param.1, []);
    assert Join(Fields([param]), FieldSeparator) == Field(param.0, param.1) + [];
  }

  /** The first of several joined fields parses, leaving ", " and the remaining fields. */
  lemma ParseFirstOfJoin(params: seq<Param>)
    requires |params| > 1 && NoEquals(params[0].0)
    ensures ParseField(Join(Fields(params), FieldSeparator)) ==
            Some((params[0], FieldSeparator + Join(Fields(params[1..]), FieldSeparator)))
  {
    var f := Fields(params);
    var rest := FieldSeparator + Join(Fields(params[1..]), FieldSeparator);
    assert f[1..] == Fields(params[1..]);
    JoinCons(f, FieldSeparator);
    assert Join(f, FieldSeparator) == Field(params[0].0, params[0].1) + rest;
    ParseFieldOf(params[0].0, params[0].1, rest);
  }

  lemma {:induction false} ParseFieldsOfJoin(params: seq<Param>)
    requires |params| > 0 && KeysWellFormed(params)
    ensures ParseFields(Join(Fields(params), FieldSeparator)) == Some(params)
    decreases |params|
  {
    assert NoEquals(params[0].0);
    if |params| == 1 {
      ParseSingleJoin(params[0]);
      assert params == [params[0]];
    } else {
      ParseFirstOfJoin(params);
      assert KeysWellFormed(params[1..]);
      ParseFieldsOfJoin(params[1..]);
      ParseFieldsCons(Join(Fields(params), FieldSeparator), params[0],
                      Join(Fields(params[1..]), FieldSeparator), params[1..]);
      assert params == [params[0]] + params[1..];
    }
  }

  /**
   * The inverse parser `ParseHeader` reads back exactly the parameters, in
   * order and decoded, from the header line of any parameter list whose
   * names hold no "=": values cannot be confused with the
   * `"` and `, ` delimiters because their encoding never holds them.
   */
  lemma HeaderRoundTrip(params: seq<Param>)
    requires KeysWellFormed(params)
    ensures ParseHeader(AuthorizationHeader(params)) == Some(params)
  {
    var header := AuthorizationHeader(params);
    var n := |AuthorizationPrefix|;
    assert header[..n] == AuthorizationPrefix;
    var body := Join(Fields(params), FieldSeparator);
    assert header[n..] == body;
    if |params| > 0 {
      var f := Fields(params);
      assert |f[0]| > 0;
      assert |params| > 1 ==> body == f[0] + FieldSeparator + Join(f[1..], FieldSeparator);
      assert |body| > 0;
      ParseFieldsOfJoin(params);
    }
  }

  /**
   * What a receiver obtains from the header of one call: the seven
   * parameters in their fixed order, PLAINTEXT and 1.0, the timestamp as
   * given, and both secrets back out of the signature.
   */
  lemma OAuthHeaderContents(consumerKey: PhpString, token: PhpString, nonce: PhpString, timestamp: int,
                            consumerSecret: PhpString, tokenSecret: PhpString)
    ensures var params := OAuthParams(consumerKey, token, nonce, timestamp, consumerSecret, tokenSecret);
            match ParseHeader(AuthorizationHeader(params))
            case None => false
            case Some(parsed) =>
              && Keys(parsed) == [ConsumerKeyName, TokenName, NonceName, TimestampName,
                                  SignatureMethodName, VersionName, SignatureName]
              && parsed[0].1 == consumerKey
              && parsed[1].1 == token
              && parsed[2].1 == nonce
              && ParseDecimal(parsed[3].1) == Some(timestamp)
              && parsed[4].1 == "PLAINTEXT"
              && parsed[5].1 == "1.0"
              && parsed[6].1 == Signature(consumerSecret, tokenSecret)
              && SplitSignature(parsed[6].1) == Some((consumerSecret, tokenSecret))
  {
    var params := OAuthParams(consumerKey, token, nonce, timestamp, consumerSecret, tokenSecret);
    HeaderRoundTrip(params);
    assert ParseHeader(AuthorizationHeader(params)) == Some(params);
    DecimalRoundTrip(timestamp);
    SignatureSplits(consumerSecret, tokenSecret);
  }
}
