/**
 github.py: checking the `X-Hub-Signature-256` header of a webhook delivery
 against an HMAC-SHA-256 of the request data keyed with the shared secret.

 HMAC (RFC 2104) over SHA-256 (FIPS 180-4) is not modelled: it is the
 parameter `hmac`, read as "the lower-case hex digest of HMAC-SHA-256 with
 this key over this message", and every property below holds for any such
 function.
 */
module Github {
  import opened Wrappers
  import opened Strings
  import opened Utf8

  const SIGNATURE_HEADER: string := "X-Hub-Signature-256"

  /**
   The parts of a request the check reads: its headers, and `data`, the body
   bytes Flask hands over as the request's data. For a form-encoded delivery
   Flask parses the form and hands over no bytes at all.
   */
  datatype Request = Request(headers: map<string, string>, data: seq<byte>)

  /** The lower-case hex digest of HMAC-SHA-256 with the given key over the given message. */
  type HmacHex = (seq<byte>, seq<byte>) -> string

  /** The reasons `WebhookSignatureError` is raised with. */
  datatype WebhookSignatureError =
    | MissingHeader
    | UnparsableHeader
    | UnknownSignatureType(name: string)
    | BadSignature(requestSignature: string, localSignature: string)
  {
    /**
     The exception's message. The two fixed texts identify their reason, and
     the other two name the offending token or both digests.
     */
    function Message(): (m: string)
      ensures m == "missing signature header" <==> MissingHeader?
      ensures m == "unable to parse signature header" <==> UnparsableHeader?
      ensures UnknownSignatureType? ==> m == "unknown signature type (" + name + ")"
      ensures BadSignature? ==> m == "bad signature: request " + requestSignature + ", local " + localSignature
    {
      match this
      case MissingHeader => "missing signature header"
      case UnparsableHeader => "unable to parse signature header"
      case UnknownSignatureType(name) =>
        var m := "unknown signature type (" + name + ")";
        assert m[2] == 'k';
        m
      case BadSignature(req, local) =>
        var m := "bad signature: request " + req + ", local " + local;
        assert m[0] == 'b';
        m
    }
  }

  /** The verifier keeps the secret as UTF-8 bytes, fixed at construction. */
  datatype GithubSignatureVerifier = GithubSignatureVerifier(secret: seq<byte>)

  /**
   `GithubSignatureVerifier(secret)`: the key is `secret.encode()`, between
   one and four bytes per character, and byte for byte an ASCII secret.
   */
  function NewVerifier(secret: string): (v: GithubSignatureVerifier)
    ensures |secret| <= |v.secret| <= 4 * |secret|
    ensures IsAscii(secret) ==> |v.secret| == |secret|
    ensures IsAscii(secret) ==> forall i :: 0 <= i < |secret| ==> v.secret[i] as int == secret[i] as int
  {
    AsciiEncodesBytewise(secret);
    GithubSignatureVerifier(Utf8Encode(secret))
  }

  /** Different secrets make different keys. */
  lemma DistinctSecretsDistinctKeys(s1: string, s2: string)
    requires s1 != s2
    ensures NewVerifier(s1).secret != NewVerifier(s2).secret
  {
    if Utf8Encode(s1) == Utf8Encode(s2) {
      Utf8EncodeInjective(s1, s2);
    }
  }

  /** The header value a genuine delivery carries for `body` under key `key`. */
  function ExpectedHeader(key: seq<byte>, body: seq<byte>, hmac: HmacHex): string {
    "sha256=" + hmac(key, body)
  }

  /**
   `verify_webhook_signature(request)`: returns `True` or raises
   `WebhookSignatureError`. The header is split at its first `=`; the part in
   front must be exactly `sha256`, and the rest must equal the digest
   computed locally over the request's data. The constant-time comparison is
   modelled as equality. Each failure carries the message the source raises.
   */
  function VerifyWebhookSignature(v: GithubSignatureVerifier, req: Request, hmac: HmacHex)
    : (r: Result<bool, WebhookSignatureError>)
    ensures r.Success? ==> r.value
    ensures r == Failure(MissingHeader) <==> SIGNATURE_HEADER !in req.headers
    ensures r == Failure(UnparsableHeader)
        <==> SIGNATURE_HEADER in req.headers && '=' !in req.headers[SIGNATURE_HEADER]
    ensures r.Failure? && r.error.UnknownSignatureType?
        <==> && SIGNATURE_HEADER in req.headers
             && SplitOnce(req.headers[SIGNATURE_HEADER], '=').Some?
             && SplitOnce(req.headers[SIGNATURE_HEADER], '=').value.0 != "sha256"
    ensures r.Failure? && r.error.UnknownSignatureType?
        ==> r.error.name == SplitOnce(req.headers[SIGNATURE_HEADER], '=').value.0
    ensures r.Failure? && r.error.BadSignature?
        ==> r.error.localSignature == hmac(v.secret, req.data)
            && r.error.requestSignature != r.error.localSignature
    ensures SIGNATURE_HEADER !in req.headers
        ==> r.Failure? && r.error.Message() == "missing signature header"
    ensures SIGNATURE_HEADER in req.headers && '=' !in req.headers[SIGNATURE_HEADER]
        ==> r.Failure? && r.error.Message() == "unable to parse signature header"
    ensures r.Failure? && r.error.UnknownSignatureType?
        ==> r.error.Message()
            == "unknown signature type (" + SplitOnce(req.headers[SIGNATURE_HEADER], '=').value.0 + ")"
    ensures r.Failure? && r.error.BadSignature?
        ==> r.error.Message()
            == "bad signature: request " + SplitOnce(req.headers[SIGNATURE_HEADER], '=').value.1
               + ", local " + hmac(v.secret, req.data)
  {
    if SIGNATURE_HEADER !in req.headers then Failure(MissingHeader)
    else
      var parts := SplitOnce(req.headers[SIGNATURE_HEADER], '=');
      if parts.None? then Failure(UnparsableHeader)
      else
        var name, requestSignature := parts.value.0, parts.value.1;
        if name != "sha256" then Failure(UnknownSignatureType(name))
        else
          var localSignature := hmac(v.secret, req.data);
          if requestSignature != localSignature then Failure(BadSignature(requestSignature, localSignature))
          else Success(true)
  }

  /**
   A delivery is accepted exactly when its header is `sha256=` followed by
   the digest of the request data under the verifier's key, character for
   character; the digest part may itself contain `=`.
   */
  lemma AcceptsExactlyExpectedHeader(v: GithubSignatureVerifier, req: Request, hmac: HmacHex)
    ensures VerifyWebhookSignature(v, req, hmac).Success?
        <==> SIGNATURE_HEADER in req.headers
             && req.headers[SIGNATURE_HEADER] == ExpectedHeader(v.secret, req.data, hmac)
  {
    if SIGNATURE_HEADER in req.headers {
      var local := hmac(v.secret, req.data);
      var expected := ExpectedHeader(v.secret, req.data, hmac);
      assert expected == "sha256" + ['='] + local;
      SplitOnceOfJoined("sha256", local, '=');
      var header := req.headers[SIGNATURE_HEADER];
      var parts := SplitOnce(header, '=');
      if parts.Some? && parts.value.0 == "sha256" && parts.value.1 == local {
        assert header == "sha256" + ['='] + local;
      }
    }
  }

  /**
   Only the signature header, the request data and the key matter: other headers
   do not, and nothing else of the request is read.
   */
  lemma DependsOnlyOnHeaderAndBody(v: GithubSignatureVerifier, r1: Request, r2: Request, hmac: HmacHex)
    requires r1.data == r2.data
    requires SIGNATURE_HEADER in r1.headers <==> SIGNATURE_HEADER in r2.headers
    requires SIGNATURE_HEADER in r1.headers ==> r1.headers[SIGNATURE_HEADER] == r2.headers[SIGNATURE_HEADER]
    ensures VerifyWebhookSignature(v, r1, hmac) == VerifyWebhookSignature(v, r2, hmac)
  {
  }

  // ---------------------------------------------------------------------------
  // The comparison as written: hmac.compare_digest on two str values

  /** What `verify_webhook_signature` can raise as written. */
  datatype Raised =
    | SignatureError(e: WebhookSignatureError)
    | TypeError

  /**
   The constant-time digest comparison on two strings: it refuses (raises `TypeError`)
   unless both are ASCII, and otherwise tells whether they are equal.
   */
  function CompareDigest(a: string, b: string): (r: Result<bool, Raised>)
    ensures r.Failure? <==> !(IsAscii(a) && IsAscii(b))
    ensures r.Success? ==> (r.value <==> a == b)
  {
    if IsAscii(a) && IsAscii(b) then Success(a == b) else Failure(TypeError)
  }

  /** github.py:17-42 as written, with `compare_digest` in place of plain equality. */
  function VerifyAsWritten(v: GithubSignatureVerifier, req: Request, hmac: HmacHex): (r: Result<bool, Raised>)
    ensures r.Success? ==> r.value
  {
    if SIGNATURE_HEADER !in req.headers then Failure(SignatureError(MissingHeader))
    else
      var parts := SplitOnce(req.headers[SIGNATURE_HEADER], '=');
      if parts.None? then Failure(SignatureError(UnparsableHeader))
      else
        var name, requestSignature := parts.value.0, parts.value.1;
        if name != "sha256" then Failure(SignatureError(UnknownSignatureType(name)))
        else
          var localSignature := hmac(v.secret, req.data);
          match CompareDigest(requestSignature, localSignature)
          case Failure(e) => Failure(e)
          case Success(same) =>
            if !same then Failure(SignatureError(BadSignature(requestSignature, localSignature)))
            else Success(true)
  }

  /**
   A header `sha256=é` makes the code as written raise `TypeError`, which is
   not a `WebhookSignatureError`, whatever the secret, body and digest.
   */
  lemma NonAsciiDigestEscapesAsTypeError(v: GithubSignatureVerifier, data: seq<byte>, hmac: HmacHex)
    ensures VerifyAsWritten(v, Request(map[SIGNATURE_HEADER := "sha256=é"], data), hmac)
         == Failure(TypeError)
  {
    var header := "sha256=é";
    assert header == "sha256" + ['='] + "é";
    SplitOnceOfJoined("sha256", "é", '=');
    assert !IsAscii("é") by { assert !IsAsciiChar("é"[0]); }
  }

  /**
   When the local hex digest is ASCII (as a hex digest is), the code as
   written also accepts exactly the header `sha256=` followed by the digest.
   */
  lemma AsWrittenAcceptsExactlyExpectedHeader(v: GithubSignatureVerifier, req: Request, hmac: HmacHex)
    requires IsAscii(hmac(v.secret, req.data))
    ensures VerifyAsWritten(v, req, hmac).Success?
        <==> SIGNATURE_HEADER in req.headers
             && req.headers[SIGNATURE_HEADER] == ExpectedHeader(v.secret, req.data, hmac)
  {
    AcceptsExactlyExpectedHeader(v, req, hmac);
  }

  /**
   The corrected check (plain equality) and the code as written agree on
   every request whose digest part is ASCII, and on every request that
   fails before the comparison.
   */
  lemma AsWrittenAgreesWhenAscii(v: GithubSignatureVerifier, req: Request, hmac: HmacHex)
    requires IsAscii(hmac(v.secret, req.data))
    requires SIGNATURE_HEADER in req.headers && SplitOnce(req.headers[SIGNATURE_HEADER], '=').Some?
             ==> IsAscii(SplitOnce(req.headers[SIGNATURE_HEADER], '=').value.1)
    ensures VerifyAsWritten(v, req, hmac)
         == match VerifyWebhookSignature(v, req, hmac)
            case Success(b) => Success(b)
            case Failure(e) => Failure(SignatureError(e))
  {
  }
}
