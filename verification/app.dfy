/**
 app.py: the `/hook/push` handler. The Flask application's configuration is
 the map `config`; the request is a `Github.Request`, whose `data` is the body
 Flask hands over as the request's data; an abort with status 400 and a
 message is an `Abort` response, and a returned dict is a JSON response.
 */
module App {
  import opened Wrappers
  import opened Strings
  import opened Utf8
  import opened JsonTree
  import opened Github

  const SECRET_KEY: string := "GITHUB_WEBHOOK_SECRET"

  /** What the handler ends in: a JSON body, or an abort with a status code and a description. */
  datatype Response =
    | JsonResponse(body: Json)
    | Abort(code: int, description: string)

  /** `{"status": "success"}` */
  const SUCCESS_BODY: Json := JObj([("status", JStr("success"))])

  const MSG_NO_SECRET: string := "Secret has not been configured"
  const MSG_NO_SIGNATURE: string := "Request is missing signature"
  const MSG_INVALID: string := "Invalid signature"
  const MSG_UNKNOWN_TYPE: string := "Unknown signature type"
  const MSG_BAD: string := "Bad signature"

  /**
   `handle_push_notification()`: five checks in a fixed order, each aborting
   with 400 and its own message, then `{"status": "success"}`.
   */
  function HandlePushNotification(config: map<string, string>, req: Request, hmac: HmacHex): (r: Response)
    ensures r.Abort? ==> r.code == 400
    ensures r.JsonResponse? ==> r.body == SUCCESS_BODY
    ensures SECRET_KEY !in config ==> r == Abort(400, MSG_NO_SECRET)
    ensures SECRET_KEY in config && SIGNATURE_HEADER !in req.headers ==> r == Abort(400, MSG_NO_SIGNATURE)
    ensures SECRET_KEY in config && SIGNATURE_HEADER in req.headers && '=' !in req.headers[SIGNATURE_HEADER]
            ==> r == Abort(400, MSG_INVALID)
  {
    if SECRET_KEY !in config then Abort(400, MSG_NO_SECRET)
    else if SIGNATURE_HEADER !in req.headers then Abort(400, MSG_NO_SIGNATURE)
    else
      var sigheader := req.headers[SIGNATURE_HEADER];
      var parts := SplitOnce(sigheader, '=');
      if parts.None? then Abort(400, MSG_INVALID)
      else
        var sigtype, sigdata := parts.value.0, parts.value.1;
        if sigtype != "sha256" then Abort(400, MSG_UNKNOWN_TYPE)
        else if hmac(Utf8Encode(config[SECRET_KEY]), req.data) != sigdata then Abort(400, MSG_BAD)
        else JsonResponse(SUCCESS_BODY)
  }

  /** The secret is checked before anything of the request is looked at. */
  lemma SecretCheckedFirst(config: map<string, string>, r1: Request, r2: Request, hmac: HmacHex)
    requires SECRET_KEY !in config
    ensures HandlePushNotification(config, r1, hmac) == HandlePushNotification(config, r2, hmac)
  {
  }

  /**
   The request succeeds exactly when a secret is configured and the header is
   `sha256=` followed by the HMAC-SHA-256 hex digest of the request data keyed
   with the secret's UTF-8 bytes.
   */
  lemma SucceedsIffDigestMatches(config: map<string, string>, req: Request, hmac: HmacHex)
    ensures HandlePushNotification(config, req, hmac).JsonResponse?
        <==> && SECRET_KEY in config
             && SIGNATURE_HEADER in req.headers
             && req.headers[SIGNATURE_HEADER] == ExpectedHeader(Utf8Encode(config[SECRET_KEY]), req.data, hmac)
  {
    if SECRET_KEY in config {
      AppAgreesWithVerifier(config, req, hmac);
      AcceptsExactlyExpectedHeader(NewVerifier(config[SECRET_KEY]), req, hmac);
    }
  }

  // ---------------------------------------------------------------------------
  // The checks as a list: the first one that fails picks the response

  datatype Check =
    | SecretConfigured
    | SignaturePresent
    | SignatureParses
    | SignatureTypeKnown
    | SignatureMatches

  const CHECK_ORDER: seq<Check> :=
    [SecretConfigured, SignaturePresent, SignatureParses, SignatureTypeKnown, SignatureMatches]

  /** Each check on its own, stated without reference to the others. */
  predicate Passes(c: Check, config: map<string, string>, req: Request, hmac: HmacHex) {
    match c
    case SecretConfigured => SECRET_KEY in config
    case SignaturePresent => SIGNATURE_HEADER in req.headers
    case SignatureParses => SIGNATURE_HEADER in req.headers && '=' in req.headers[SIGNATURE_HEADER]
    case SignatureTypeKnown =>
      SIGNATURE_HEADER in req.headers && SplitOnce(req.headers[SIGNATURE_HEADER], '=').Some?
      && SplitOnce(req.headers[SIGNATURE_HEADER], '=').value.0 == "sha256"
    case SignatureMatches =>
      SECRET_KEY in config && SIGNATURE_HEADER in req.headers
      && req.headers[SIGNATURE_HEADER] == ExpectedHeader(Utf8Encode(config[SECRET_KEY]), req.data, hmac)
  }

  function AbortMessage(c: Check): string {
    match c
    case SecretConfigured => MSG_NO_SECRET
    case SignaturePresent => MSG_NO_SIGNATURE
    case SignatureParses => MSG_INVALID
    case SignatureTypeKnown => MSG_UNKNOWN_TYPE
    case SignatureMatches => MSG_BAD
  }

  /** The first check of `checks` that does not pass, if any. */
  function FirstFailing(checks: seq<Check>, config: map<string, string>, req: Request, hmac: HmacHex)
    : (r: Option<Check>)
    ensures r.None? <==> forall i :: 0 <= i < |checks| ==> Passes(checks[i], config, req, hmac)
    ensures r.Some? ==> r.value in checks && !Passes(r.value, config, req, hmac)
    ensures r.Some? ==> exists i :: 0 <= i < |checks| && checks[i] == r.value
                          && forall j :: 0 <= j < i ==> Passes(checks[j], config, req, hmac)
  {
    if |checks| == 0 then None
    else if !Passes(checks[0], config, req, hmac) then Some(checks[0])
    else
      var rest := FirstFailing(checks[1..], config, req, hmac);
      assert rest.Some? ==> exists i :: 0 <= i < |checks| && checks[i] == rest.value
                              && forall j :: 0 <= j < i ==> Passes(checks[j], config, req, hmac) by {
        if rest.Some? {
          var k :| 0 <= k < |checks| - 1 && checks[1..][k] == rest.value
                   && forall j :: 0 <= j < k ==> Passes(checks[1..][j], config, req, hmac);
          assert forall j :: 0 <= j < k + 1 ==> Passes(checks[j], config, req, hmac) by {
            forall j | 0 <= j < k + 1 ensures Passes(checks[j], config, req, hmac) {
              if j > 0 { assert checks[j] == checks[1..][j - 1]; }
            }
          }
          assert checks[k + 1] == rest.value;
        }
      }
      rest
  }

  /** `FirstFailing` over the five checks, unrolled. */
  lemma FirstFailingInOrder(config: map<string, string>, req: Request, hmac: HmacHex)
    ensures FirstFailing(CHECK_ORDER, config, req, hmac)
         == if !Passes(SecretConfigured, config, req, hmac) then Some(SecretConfigured)
            else if !Passes(SignaturePresent, config, req, hmac) then Some(SignaturePresent)
            else if !Passes(SignatureParses, config, req, hmac) then Some(SignatureParses)
            else if !Passes(SignatureTypeKnown, config, req, hmac) then Some(SignatureTypeKnown)
            else if !Passes(SignatureMatches, config, req, hmac) then Some(SignatureMatches)
            else None
  {
    var c0 := CHECK_ORDER;
    var c1 := c0[1..];
    var c2 := c1[1..];
    var c3 := c2[1..];
    var c4 := c3[1..];
    assert c1[0] == SignaturePresent && c2[0] == SignatureParses;
    assert c3[0] == SignatureTypeKnown && c4[0] == SignatureMatches && c4[1..] == [];
    assert FirstFailing(c4[1..], config, req, hmac) == None;
    assert FirstFailing(c4, config, req, hmac)
        == if !Passes(SignatureMatches, config, req, hmac) then Some(SignatureMatches) else None;
    assert FirstFailing(c3, config, req, hmac)
        == if !Passes(SignatureTypeKnown, config, req, hmac) then Some(SignatureTypeKnown)
           else FirstFailing(c4, config, req, hmac);
    assert FirstFailing(c2, config, req, hmac)
        == if !Passes(SignatureParses, config, req, hmac) then Some(SignatureParses)
           else FirstFailing(c3, config, req, hmac);
    assert FirstFailing(c1, config, req, hmac)
        == if !Passes(SignaturePresent, config, req, hmac) then Some(SignaturePresent)
           else FirstFailing(c2, config, req, hmac);
  }

  /**
   The handler is "run the five checks in order; the first that fails aborts
   with 400 and its message; if none fails, succeed".
   */
  lemma HandlerIsFirstFailingCheck(config: map<string, string>, req: Request, hmac: HmacHex)
    ensures HandlePushNotification(config, req, hmac)
         == match FirstFailing(CHECK_ORDER, config, req, hmac)
            case None => JsonResponse(SUCCESS_BODY)
            case Some(c) => Abort(400, AbortMessage(c))
  {
    FirstFailingInOrder(config, req, hmac);
    if SECRET_KEY in config {
      AppAgreesWithVerifier(config, req, hmac);
      AcceptsExactlyExpectedHeader(NewVerifier(config[SECRET_KEY]), req, hmac);
    }
  }

  // ---------------------------------------------------------------------------
  // app.py and github.py agree

  /** The response app.py gives for each outcome of `verify_webhook_signature`. */
  function ResponseFor(r: Result<bool, WebhookSignatureError>): Response {
    match r
    case Success(_) => JsonResponse(SUCCESS_BODY)
    case Failure(MissingHeader) => Abort(400, MSG_NO_SIGNATURE)
    case Failure(UnparsableHeader) => Abort(400, MSG_INVALID)
    case Failure(UnknownSignatureType(_)) => Abort(400, MSG_UNKNOWN_TYPE)
    case Failure(BadSignature(_, _)) => Abort(400, MSG_BAD)
  }

  /**
   With the secret configured, the handler answers exactly as
   `GithubSignatureVerifier(secret).verify_webhook_signature` decides: the same
   requests are accepted, and each rejection has the matching message.
   */
  lemma AppAgreesWithVerifier(config: map<string, string>, req: Request, hmac: HmacHex)
    requires SECRET_KEY in config
    ensures HandlePushNotification(config, req, hmac)
         == ResponseFor(VerifyWebhookSignature(NewVerifier(config[SECRET_KEY]), req, hmac))
    ensures HandlePushNotification(config, req, hmac).JsonResponse?
        <==> VerifyWebhookSignature(NewVerifier(config[SECRET_KEY]), req, hmac).Success?
  {
  }

  /**
   Against the code as written too, the handler succeeds exactly when the
   verifier accepts, provided the local hex digest is ASCII.
   */
  lemma AppAgreesWithAsWrittenWhenAscii(config: map<string, string>, req: Request, hmac: HmacHex)
    requires SECRET_KEY in config
    requires IsAscii(hmac(Utf8Encode(config[SECRET_KEY]), req.data))
    ensures HandlePushNotification(config, req, hmac).JsonResponse?
        <==> VerifyAsWritten(NewVerifier(config[SECRET_KEY]), req, hmac).Success?
  {
    SucceedsIffDigestMatches(config, req, hmac);
    AsWrittenAcceptsExactlyExpectedHeader(NewVerifier(config[SECRET_KEY]), req, hmac);
  }

  /**
   Where they part: on `sha256=é` the handler aborts with "Bad signature",
   while the verifier as written raises `TypeError`.
   */
  lemma AppAndAsWrittenDisagreeOnNonAscii(config: map<string, string>, data: seq<byte>, hmac: HmacHex)
    requires SECRET_KEY in config
    requires IsAscii(hmac(Utf8Encode(config[SECRET_KEY]), data))
    ensures HandlePushNotification(config, Request(map[SIGNATURE_HEADER := "sha256=é"], data), hmac)
         == Abort(400, MSG_BAD)
    ensures VerifyAsWritten(NewVerifier(config[SECRET_KEY]), Request(map[SIGNATURE_HEADER := "sha256=é"], data), hmac)
         == Failure(TypeError)
  {
    NonAsciiDigestEscapesAsTypeError(NewVerifier(config[SECRET_KEY]), data, hmac);
    var header := "sha256=é";
    assert header == "sha256" + ['='] + "é";
    SplitOnceOfJoined("sha256", "é", '=');
    assert !IsAscii("é") by { assert !IsAsciiChar("é"[0]); }
  }
}
