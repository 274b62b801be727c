/**
 * Admin tokens and the guards built on them: the claims `generateAdminToken` signs, the
 * `verifyAdminToken` wrapper with its type check, the `Bearer ` stripping of
 * `getAdminFromToken`, and the `requireAdmin` / `requireSuperAdmin` checks.
 *
 * The JSON Web Token library is abstract: `encode` turns a payload and the secret it is signed
 * with into token text, `decode` reads that back (None for text that is no token). `exp` and
 * `iat` are NumericDate values in seconds, as section 4.1.4 of RFC 7519 defines `exp`.
 */
module AdminAuth {
  import opened Wrappers
  import opened JsText

  /** The claims a token carries besides `iat` and `exp`; `tokenType` is the `type` claim. */
  datatype Claims = Claims(id: string, username: string, email: string, role: string, tokenType: string)

  /** A verified payload: the claims plus the issue and expiry times (seconds) the library adds. */
  datatype Decoded = Decoded(claims: Claims, iat: int, exp: int)

  /** What a token text stands for: its payload and the secret that signed it. */
  datatype SignedToken = SignedToken(payload: Decoded, secret: string)

  datatype JwtLibrary = JwtLibrary(encode: SignedToken -> string, decode: string -> Option<SignedToken>)

  /**
   * A library whose tokens decode to what was signed and, being base64url text joined by dots,
   * are never empty and contain no space.
   */
  ghost predicate Faithful(lib: JwtLibrary) {
    forall t :: lib.decode(lib.encode(t)) == Some(t) && lib.encode(t) != "" && ' ' !in lib.encode(t)
  }

  /** `expiresIn: '7d'`, in seconds. */
  const TokenLifetime := 7 * 24 * 60 * 60

  const AdminType := "admin"
  const SuperAdminRole := "superadmin"

  const TokenMissing := "jwt must be provided"
  const TokenMalformed := "jwt malformed"
  const SecretMissing := "secret or public key must be provided"
  const SignatureInvalid := "invalid signature"
  const TokenExpired := "jwt expired"
  const SigningSecretMissing := "secretOrPrivateKey must have a value"
  const InvalidTokenType := "Invalid token type"
  const AuthenticationRequired := "Authentication required. Please login as admin."
  const AdminRequired := "Admin privileges required."
  const SuperAdminRequired := "Super admin privileges required."

  /** Seconds since the epoch at millisecond time `now`: `Math.floor(Date.now() / 1000)`. */
  function Seconds(now: int): int {
    now / 1000
  }

  /**
   * `jwt.verify(token, secret)`: the payload when the text decodes, was signed with `secret`
   * and the current second is before `exp`; otherwise the library's error message.
   */
  function JwtVerify(lib: JwtLibrary, token: string, secret: string, now: int): (r: Result<Decoded>)
    ensures r.Success? <==>
      && token != "" && secret != "" && lib.decode(token).Some?
      && lib.decode(token).value.secret == secret
      && Seconds(now) < lib.decode(token).value.payload.exp
    ensures r.Success? ==> r.value == lib.decode(token).value.payload
    ensures r.Failure? ==>
      r.error in {TokenMissing, TokenMalformed, SecretMissing, SignatureInvalid, TokenExpired}
  {
    if token == "" then Failure(TokenMissing)
    else match lib.decode(token)
      case None => Failure(TokenMalformed)
      case Some(signed) =>
        if secret == "" then Failure(SecretMissing)
        else if signed.secret != secret then Failure(SignatureInvalid)
        else if Seconds(now) >= signed.payload.exp then Failure(TokenExpired)
        else Success(signed.payload)
  }

  /** The payload of `generateAdminToken(admin)`: id, username, email, role and type 'admin'. */
  function AdminClaims(id: string, username: string, email: string, role: string): (c: Claims)
    ensures c.tokenType == AdminType
    ensures c.id == id && c.username == username && c.email == email && c.role == role
  {
    Claims(id, username, email, role, AdminType)
  }

  /**
   * `generateAdminToken(admin)` at time `now`: the admin's claims signed with `secret`, issued
   * now and expiring seven days later; signing with an empty secret throws.
   */
  function GenerateAdminToken(lib: JwtLibrary, id: string, username: string, email: string, role: string,
                              secret: string, now: int): (r: Result<string>)
    ensures r.Success? <==> secret != ""
    ensures r.Failure? ==> r.error == SigningSecretMissing
    ensures r.Success? && Faithful(lib) ==>
      lib.decode(r.value) == Some(SignedToken(
        Decoded(AdminClaims(id, username, email, role), Seconds(now), Seconds(now) + TokenLifetime), secret))
  {
    if secret == "" then Failure(SigningSecretMissing)
    else
      var payload := Decoded(AdminClaims(id, username, email, role), Seconds(now), Seconds(now) + TokenLifetime);
      Success(lib.encode(SignedToken(payload, secret)))
  }

  /** `{ valid: true, decoded }` or `{ valid: false, error }`. */
  datatype Verification = Verified(decoded: Decoded) | Rejected(error: string)

  /**
   * `verifyAdminToken(token)`: never throws; valid exactly when the library accepts the token
   * and its type claim is 'admin'.
   */
  function VerifyAdminToken(lib: JwtLibrary, token: string, secret: string, now: int): (r: Verification)
    ensures r.Verified? <==>
      JwtVerify(lib, token, secret, now).Success? && JwtVerify(lib, token, secret, now).value.claims.tokenType == AdminType
    ensures r.Verified? ==> r.decoded == JwtVerify(lib, token, secret, now).value
    ensures JwtVerify(lib, token, secret, now).Failure? ==>
      r == Rejected(JwtVerify(lib, token, secret, now).error)
    ensures JwtVerify(lib, token, secret, now).Success? && r.Rejected? ==> r.error == InvalidTokenType
  {
    match JwtVerify(lib, token, secret, now)
    case Failure(e) => Rejected(e)
    case Success(decoded) =>
      if decoded.claims.tokenType != AdminType then Rejected(InvalidTokenType) else Verified(decoded)
  }

  /**
   * `getAdminFromToken(token)`: null for an empty token; otherwise the first `Bearer ` is cut
   * out and the claims of a valid admin token are returned, null for anything else.
   */
  function GetAdminFromToken(lib: JwtLibrary, token: string, secret: string, now: int): (r: Option<Decoded>)
    ensures token == "" ==> r.None?
    ensures token != "" ==>
      (r.Some? <==> VerifyAdminToken(lib, ReplaceFirst(token, "Bearer ", ""), secret, now).Verified?)
    ensures r.Some? ==> r.value == VerifyAdminToken(lib, ReplaceFirst(token, "Bearer ", ""), secret, now).decoded
    ensures r.Some? ==> RequireAdmin(r) == Pass
  {
    if token == "" then None
    else
      var clean := ReplaceFirst(token, "Bearer ", "");
      match VerifyAdminToken(lib, clean, secret, now)
      case Verified(decoded) => Some(decoded)
      case Rejected(_) => None
  }

  /** A guard either lets the request through or throws with a message. */
  datatype Guard = Pass | Fail(message: string)

  /** `requireAdmin(admin)`: claims must be present and of type 'admin'. */
  function RequireAdmin(admin: Option<Decoded>): (r: Guard)
    ensures r == Pass <==> admin.Some? && admin.value.claims.tokenType == AdminType
    ensures admin.None? ==> r == Fail(AuthenticationRequired)
    ensures admin.Some? && admin.value.claims.tokenType != AdminType ==> r == Fail(AdminRequired)
  {
    if admin.None? then Fail(AuthenticationRequired)
    else if admin.value.claims.tokenType != AdminType then Fail(AdminRequired)
    else Pass
  }

  /** `requireSuperAdmin(admin)`: `requireAdmin` first, whose errors win, then the role. */
  function RequireSuperAdmin(admin: Option<Decoded>): (r: Guard)
    ensures RequireAdmin(admin).Fail? ==> r == RequireAdmin(admin)
    ensures r == Pass <==> RequireAdmin(admin) == Pass && admin.value.claims.role == SuperAdminRole
    ensures RequireAdmin(admin) == Pass && r != Pass ==> r == Fail(SuperAdminRequired)
  {
    match RequireAdmin(admin)
    case Fail(m) => Fail(m)
    case Pass => if admin.value.claims.role != SuperAdminRole then Fail(SuperAdminRequired) else Pass
  }

  /** A token is text without a space, so it never holds `Bearer ` and replacing leaves it alone. */
  lemma ReplaceLeavesSpacelessText(token: string)
    requires ' ' !in token
    ensures ReplaceFirst(token, "Bearer ", "") == token
  {
    if IndexOf(token, "Bearer ").Some? {
      FoundPatternCharacter(token, "Bearer ", ' ');
      assert false;
    }
  }

  /**
   * A token fresh from `generateAdminToken` verifies, with the same secret and before it
   * expires, to exactly the claims that were signed.
   */
  lemma AdminTokenRoundTrip(lib: JwtLibrary, id: string, username: string, email: string, role: string,
                            secret: string, issued: int, now: int)
    requires Faithful(lib) && secret != ""
    requires Seconds(now) < Seconds(issued) + TokenLifetime
    ensures GenerateAdminToken(lib, id, username, email, role, secret, issued).Success?
    ensures var token := GenerateAdminToken(lib, id, username, email, role, secret, issued).value;
      VerifyAdminToken(lib, token, secret, now) ==
        Verified(Decoded(AdminClaims(id, username, email, role), Seconds(issued), Seconds(issued) + TokenLifetime))
  {
    var token := GenerateAdminToken(lib, id, username, email, role, secret, issued).value;
    var signed := SignedToken(Decoded(AdminClaims(id, username, email, role), Seconds(issued),
                                      Seconds(issued) + TokenLifetime), secret);
    assert token == lib.encode(signed);
    assert lib.decode(token) == Some(signed);
  }

  /** The same token, sent raw or as `Bearer <token>`, yields the admin's claims from the context. */
  lemma AdminFromBearerHeader(lib: JwtLibrary, id: string, username: string, email: string, role: string,
                              secret: string, issued: int, now: int)
    requires Faithful(lib) && secret != ""
    requires Seconds(now) < Seconds(issued) + TokenLifetime
    ensures var token := GenerateAdminToken(lib, id, username, email, role, secret, issued).value;
      var claims := Decoded(AdminClaims(id, username, email, role), Seconds(issued), Seconds(issued) + TokenLifetime);
      && GetAdminFromToken(lib, token, secret, now) == Some(claims)
      && GetAdminFromToken(lib, "Bearer " + token, secret, now) == Some(claims)
  {
    AdminTokenRoundTrip(lib, id, username, email, role, secret, issued, now);
    var token := GenerateAdminToken(lib, id, username, email, role, secret, issued).value;
    var signed := SignedToken(Decoded(AdminClaims(id, username, email, role), Seconds(issued),
                                      Seconds(issued) + TokenLifetime), secret);
    assert token == lib.encode(signed);
    assert ' ' !in token;
    ReplaceLeavesSpacelessText(token);
    var header := "Bearer " + token;
    assert "Bearer " <= header && header[7..] == token;
    assert ReplaceFirst(header, "Bearer ", "") == "" + token == token;
  }

  /** Seven days after issue, to the second, the token is refused as expired. */
  lemma AdminTokenExpires(lib: JwtLibrary, id: string, username: string, email: string, role: string,
                          secret: string, issued: int, now: int)
    requires Faithful(lib) && secret != ""
    requires Seconds(now) >= Seconds(issued) + TokenLifetime
    ensures var token := GenerateAdminToken(lib, id, username, email, role, secret, issued).value;
      VerifyAdminToken(lib, token, secret, now) == Rejected(TokenExpired)
  {
    var token := GenerateAdminToken(lib, id, username, email, role, secret, issued).value;
    var signed := SignedToken(Decoded(AdminClaims(id, username, email, role), Seconds(issued),
                                      Seconds(issued) + TokenLifetime), secret);
    assert token == lib.encode(signed);
  }

  /** A token signed with another secret is refused, however fresh. */
  lemma AdminTokenNeedsSameSecret(lib: JwtLibrary, id: string, username: string, email: string, role: string,
                                  secret: string, other: string, issued: int, now: int)
    requires Faithful(lib) && secret != "" && other != "" && other != secret
    ensures var token := GenerateAdminToken(lib, id, username, email, role, secret, issued).value;
      VerifyAdminToken(lib, token, other, now) == Rejected(SignatureInvalid)
  {
    var token := GenerateAdminToken(lib, id, username, email, role, secret, issued).value;
    var signed := SignedToken(Decoded(AdminClaims(id, username, email, role), Seconds(issued),
                                      Seconds(issued) + TokenLifetime), secret);
    assert token == lib.encode(signed);
  }

  /** A validly signed, unexpired token whose type claim is not 'admin' yields no admin. */
  lemma OtherTokenTypesGiveNoAdmin(lib: JwtLibrary, claims: Claims, secret: string, issued: int, exp: int, now: int)
    requires Faithful(lib) && secret != "" && claims.tokenType != AdminType && Seconds(now) < exp
    ensures var token := lib.encode(SignedToken(Decoded(claims, issued, exp), secret));
      && VerifyAdminToken(lib, token, secret, now) == Rejected(InvalidTokenType)
      && GetAdminFromToken(lib, token, secret, now) == None
  {
    var signed := SignedToken(Decoded(claims, issued, exp), secret);
    var token := lib.encode(signed);
    assert lib.decode(token) == Some(signed);
    assert ' ' !in token;
    ReplaceLeavesSpacelessText(token);
  }
}
