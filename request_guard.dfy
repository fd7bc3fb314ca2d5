/**
 * The decision the request guard takes for one request (request_guard.rs):
 * from the `Authorization` header values, whether the auth object is
 * available, and what its `verify` answers, to a user or a status and reason.
 */
module RequestGuard {
  import opened Wrappers
  import opened Jwk

  datatype AuthError = InvalidJwt | NoAuthorizationHeader | MultipleKeysProvided | NoJwkVerifier

  /** The HTTP statuses the guard fails with: 400, 401 and 500. */
  datatype Status = BadRequest | Unauthorized | InternalServerError

  datatype User = User(uid: string)

  datatype Outcome = Success(user: User) | Failure(status: Status, error: AuthError)

  /** An `Authorization` header value, as the bytes of the `&str` that holds it. */
  type HeaderValue = seq<byte>

  /** The verify operation of the managed auth object, as seen by one request. */
  type TokenVerifier = Jwt -> Option<TokenData>

  /** The bytes of "Bearer ". */
  const BearerPrefix: seq<byte> := [0x42, 0x65, 0x61, 0x72, 0x65, 0x72, 0x20]

  /** `"Bearer ".len()`: the number of bytes dropped from the header. */
  const PrefixLen: nat := |BearerPrefix|

  /** A UTF-8 continuation byte (`10xxxxxx`): no character starts there. */
  predicate IsContinuationByte(b: byte)
  {
    0x80 <= b < 0xC0
  }

  /** Rust's `str::is_char_boundary`: the only byte indices a `&str` may be sliced at. */
  predicate IsCharBoundary(s: seq<byte>, i: nat)
    requires i <= |s|
  {
    i == 0 || i == |s| || !IsContinuationByte(s[i])
  }

  /** What `get_token_from_header` as written can do: no token, a token, or a panic of the slice. */
  datatype Extraction = TooShort | Extracted(token: Jwt) | SlicePanic

  /**
   * `get_token_from_header` as written: shorter than seven bytes gives no
   * token; otherwise `header[7..]` is taken, which panics when byte 7 falls
   * inside a multi-byte character.
   */
  function GetTokenFromHeaderAsWritten(header: HeaderValue): (r: Extraction)
    ensures r.TooShort? <==> |header| < PrefixLen
    ensures r.SlicePanic? <==> |header| >= PrefixLen && !IsCharBoundary(header, PrefixLen)
    ensures r.Extracted? ==> header == header[..PrefixLen] + r.token
  {
    if |header| < PrefixLen then TooShort
    else if !IsCharBoundary(header, PrefixLen) then SlicePanic
    else Extracted(header[PrefixLen..])
  }

  /** "Bearer" followed at once by "é" (bytes C3 A9) is valid UTF-8, yet byte 7 is A9: the guard panics. */
  lemma MissingSpaceBeforeAccentPanics()
    ensures GetTokenFromHeaderAsWritten(BearerPrefix[..6] + [0xC3, 0xA9]).SlicePanic?
  {
  }

  /**
   * `get_token_from_header` with the slice made safe: everything after the
   * first seven bytes, whatever those bytes are, and no token when the header
   * is shorter or byte 7 is inside a character.
   */
  function GetTokenFromHeader(header: HeaderValue): (r: Option<Jwt>)
    ensures r.None? <==> |header| < PrefixLen || !IsCharBoundary(header, PrefixLen)
    ensures r.Some? ==> |r.value| == |header| - PrefixLen && header == header[..PrefixLen] + r.value
  {
    if |header| < PrefixLen || !IsCharBoundary(header, PrefixLen) then None
    else Some(header[PrefixLen..])
  }

  /** The corrected extraction agrees with the written one wherever that one does not panic. */
  lemma GetTokenFromHeaderAgrees(header: HeaderValue)
    ensures GetTokenFromHeaderAsWritten(header).TooShort? ==> GetTokenFromHeader(header).None?
    ensures GetTokenFromHeaderAsWritten(header).Extracted? ==>
      GetTokenFromHeader(header) == Some(GetTokenFromHeaderAsWritten(header).token)
  {
  }

  /**
   * Extraction undoes prefixing: any seven bytes (not only "Bearer ")
   * followed by a token that starts a character give back that token.
   */
  lemma {:induction false} ExtractionInvertsPrefix(prefix: seq<byte>, token: Jwt)
    requires |prefix| == PrefixLen
    requires token == [] || !IsContinuationByte(token[0])
    ensures GetTokenFromHeader(prefix + token) == Some(token)
  {
    var header := prefix + token;
    assert header[PrefixLen..] == token;
    if token != [] { assert header[PrefixLen] == token[0]; }
  }

  /** The unit tests of request_guard.rs: "Bearer token_string", "Bear", "Bearer". */
  lemma ExtractTokenExamples()
    ensures GetTokenFromHeader(BearerPrefix + [0x74, 0x6f, 0x6b, 0x65, 0x6e, 0x5f, 0x73, 0x74, 0x72, 0x69, 0x6e, 0x67])
         == Some([0x74, 0x6f, 0x6b, 0x65, 0x6e, 0x5f, 0x73, 0x74, 0x72, 0x69, 0x6e, 0x67])
    ensures GetTokenFromHeader(BearerPrefix[..4]).None?
    ensures GetTokenFromHeader(BearerPrefix[..6]).None?
    ensures GetTokenFromHeader(BearerPrefix) == Some([])
    ensures GetTokenFromHeaderAsWritten(BearerPrefix + [0x74, 0x6f, 0x6b, 0x65, 0x6e, 0x5f, 0x73, 0x74, 0x72, 0x69, 0x6e, 0x67])
         == Extracted([0x74, 0x6f, 0x6b, 0x65, 0x6e, 0x5f, 0x73, 0x74, 0x72, 0x69, 0x6e, 0x67])
    ensures GetTokenFromHeaderAsWritten(BearerPrefix[..4]).TooShort?
    ensures GetTokenFromHeaderAsWritten(BearerPrefix[..6]).TooShort?
  {
    var token: seq<byte> := [0x74, 0x6f, 0x6b, 0x65, 0x6e, 0x5f, 0x73, 0x74, 0x72, 0x69, 0x6e, 0x67];
    ExtractionInvertsPrefix(BearerPrefix, token);
    ExtractionInvertsPrefix(BearerPrefix, []);
  }

  /** `verify_token`: a verified token gives its subject as the user; anything else is 400 `InvalidJwt`. */
  function VerifyToken(token: Jwt, verify: TokenVerifier): (r: Outcome)
    ensures r.Success? <==> verify(token).Some?
    ensures r.Success? ==> r.user.uid == verify(token).value.claims.sub
    ensures r.Failure? ==> r == Failure(BadRequest, InvalidJwt)
  {
    match verify(token)
    case Some(td) => Success(User(td.claims.sub))
    case None => Failure(BadRequest, InvalidJwt)
  }

  /** `parse_and_verify_auth_header`: a header with no token is 401 `InvalidJwt` and `verify` is not asked. */
  function ParseAndVerifyAuthHeader(header: HeaderValue, verify: TokenVerifier): (r: Outcome)
    ensures GetTokenFromHeader(header).None? ==> r == Failure(Unauthorized, InvalidJwt)
    ensures GetTokenFromHeader(header).Some? ==> r == VerifyToken(GetTokenFromHeader(header).value, verify)
  {
    match GetTokenFromHeader(header)
    case Some(token) => VerifyToken(token, verify)
    case None => Failure(Unauthorized, InvalidJwt)
  }

  /** `from_request`: the decision over the auth object and the number of `Authorization` headers. */
  function FromRequest(authHeaders: seq<HeaderValue>, auth: Option<TokenVerifier>): (r: Outcome)
    ensures auth.None? ==> r == Failure(InternalServerError, NoJwkVerifier)
    ensures auth.Some? && |authHeaders| == 0 ==> r == Failure(Unauthorized, NoAuthorizationHeader)
    ensures auth.Some? && |authHeaders| > 1 ==> r == Failure(BadRequest, MultipleKeysProvided)
    ensures auth.Some? && |authHeaders| == 1 && GetTokenFromHeader(authHeaders[0]).None? ==>
      r == Failure(Unauthorized, InvalidJwt)
    ensures r.Success? <==>
      auth.Some? && |authHeaders| == 1 && GetTokenFromHeader(authHeaders[0]).Some? &&
      auth.value(GetTokenFromHeader(authHeaders[0]).value).Some?
    ensures r.Success? ==> r.user.uid == auth.value(GetTokenFromHeader(authHeaders[0]).value).value.claims.sub
  {
    match auth
    case Some(verify) =>
      if |authHeaders| == 0 then Failure(Unauthorized, NoAuthorizationHeader)
      else if |authHeaders| == 1 then ParseAndVerifyAuthHeader(authHeaders[0], verify)
      else Failure(BadRequest, MultipleKeysProvided)
    case None => Failure(InternalServerError, NoJwkVerifier)
  }

  /**
   * Unless there is exactly one header carrying a token, the outcome does not
   * depend on what `verify` would answer: it is never consulted.
   */
  lemma VerifyNotConsulted(authHeaders: seq<HeaderValue>, v: TokenVerifier, w: TokenVerifier)
    requires |authHeaders| != 1 || GetTokenFromHeader(authHeaders[0]).None?
    ensures FromRequest(authHeaders, Some(v)) == FromRequest(authHeaders, Some(w))
    ensures FromRequest(authHeaders, Some(v)).Failure?
  {
  }

  /** A rejected token is always 400 `InvalidJwt`, so the caller never learns which check failed. */
  lemma RejectionHidesReason(header: HeaderValue, verify: TokenVerifier)
    requires GetTokenFromHeader(header).Some? && verify(GetTokenFromHeader(header).value).None?
    ensures FromRequest([header], Some(verify)) == Failure(BadRequest, InvalidJwt)
  {
  }
}
