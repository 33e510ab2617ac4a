/** Access and refresh tokens: which secret signs and which verifies, the
    claims they carry, how `authenticateToken` picks the token out of the
    `Authorization` header, and the 401 / 403 / pass decision it makes.
    `jwt.sign` and `jwt.verify` are parameters: a `Signer` and a `Verifier`. */
module Tokens {
  import opened Wrappers
  import opened JsText

  /** The environment variables the token code reads (`undefined` is `None`).
      `lifetimesValid` says whether `JWT_EXPIRES_IN` and `JWT_REFRESH_EXPIRES_IN`
      (or their defaults '15m' and '7d') are both timespans `jwt.sign` accepts;
      when one of them is not, at least one of the two `jwt.sign` calls of a
      handler throws, and the handler answers 500. */
  datatype Config = Config(jwtSecret: Option<string>, jwtRefreshSecret: Option<string>, lifetimesValid: bool)

  /** `process.env.X || fallback` */
  function EnvOr(v: Option<string>, fallback: string): (r: string)
    requires fallback != ""
    ensures r != ""
    ensures Truthy(v) ==> r == v.value
    ensures r == fallback <==> !Truthy(v) || v.value == fallback
  {
    if Truthy(v) then v.value else fallback
  }

  /** The secret both the login and the register handlers sign access tokens with. */
  function AccessSigningKey(cfg: Config): (k: string)
    ensures k != ""
    ensures Truthy(cfg.jwtSecret) ==> k == cfg.jwtSecret.value
    ensures !Truthy(cfg.jwtSecret) ==> k == "fallback_secret"
  {
    EnvOr(cfg.jwtSecret, "fallback_secret")
  }

  /** The secret refresh tokens are signed with. */
  function RefreshSigningKey(cfg: Config): (k: string)
    ensures k != ""
    ensures Truthy(cfg.jwtRefreshSecret) ==> k == cfg.jwtRefreshSecret.value
    ensures !Truthy(cfg.jwtRefreshSecret) ==> k == "fallback_refresh_secret"
  {
    EnvOr(cfg.jwtRefreshSecret, "fallback_refresh_secret")
  }

  /** The secret `authenticateToken` hands to `jwt.verify`: the raw variable,
      with no fallback. It is the secret access tokens are signed with exactly
      when the variable is set and non-empty. */
  function AccessVerifyKeyAsWritten(cfg: Config): (k: Option<string>)
    ensures k == Some(AccessSigningKey(cfg)) <==> Truthy(cfg.jwtSecret)
  {
    cfg.jwtSecret
  }

  /** The secret verification would need to use for every issued token to
      verify: the one access tokens are signed with. */
  function AccessVerifyKey(cfg: Config): (k: Option<string>)
    ensures k.Some? && k.value != ""
    ensures Truthy(cfg.jwtSecret) ==> k == cfg.jwtSecret
  {
    Some(AccessSigningKey(cfg))
  }

  /** A token payload as `jwt.verify` hands it back; absent members are `None`. */
  datatype Claims = Claims(userId: Option<int>, email: Option<string>, role: Option<string>, tokenType: Option<string>)

  /** `{ userId, email, role }` */
  function AccessClaims(userId: int, email: string, role: string): Claims {
    Claims(Some(userId), Some(email), Some(role), None)
  }

  /** `{ userId, type: 'refresh' }` */
  function RefreshClaims(userId: int): Claims {
    Claims(Some(userId), None, None, Some("refresh"))
  }

  /** `jwt.sign(claims, secret)` */
  type Signer = (Claims, string) -> string

  /** `jwt.verify(token, secret)`: the payload, or `None` for any error
      (bad signature, expired, malformed, no secret). */
  type Verifier = (string, Option<string>) -> Option<Claims>

  /** A compact JWS: never empty and never contains a space. */
  predicate IsCompactToken(t: string) {
    t != "" && ' ' !in t
  }

  /** What the model asks of the signature scheme: a token verifies under the
      secret it was signed with and yields its claims, and under any other
      secret, or none, it does not verify. */
  ghost predicate SignerSound(sign: Signer, verify: Verifier) {
    && (forall c, k :: IsCompactToken(sign(c, k)))
    && (forall c, k :: verify(sign(c, k), Some(k)) == Some(c))
    && (forall c, k, k' :: k' != Some(k) ==> verify(sign(c, k), k') == None)
  }

  /** The `tokens` object of the login and register responses. `expiresAt` is
      in milliseconds since the epoch (the ISO string's instant). */
  datatype TokenPair = TokenPair(accessToken: string, refreshToken: string, expiresAt: int, expiresIn: int)

  const AccessLifetimeMinutes: nat := 15

  /** Both tokens for one user; the reported lifetime in seconds is the offset
      of the reported expiry instant from the clock reading. */
  function IssueTokens(userId: int, email: string, role: string, cfg: Config, sign: Signer, nowMs: int): (t: TokenPair)
    ensures t.expiresIn == AccessLifetimeMinutes * 60
    ensures t.expiresAt - nowMs == t.expiresIn * 1000
    ensures t.accessToken == sign(AccessClaims(userId, email, role), AccessSigningKey(cfg))
    ensures t.refreshToken == sign(RefreshClaims(userId), RefreshSigningKey(cfg))
  {
    TokenPair(
      sign(AccessClaims(userId, email, role), AccessSigningKey(cfg)),
      sign(RefreshClaims(userId), RefreshSigningKey(cfg)),
      nowMs + AccessLifetimeMinutes * 60 * 1000,
      900)
  }

  /** `authHeader && authHeader.split(' ')[1]`: the text after the first space,
      up to the next space or the end; absent when there is no space. */
  function AccessTokenOf(header: Option<string>): (t: Option<string>)
    ensures t.Some? <==> header.Some? && ' ' in header.value
    ensures t.Some? ==>
      var h, i := header.value, IndexOf(header.value, ' ');
      var j := i + 1 + |t.value|;
      && ' ' !in t.value && j <= |h| && h[i + 1..j] == t.value
      && (j == |h| || h[j] == ' ')
  {
    if header.None? then None
    else
      var h := header.value;
      var parts := Split(h, ' ');
      var i := IndexOf(h, ' ');
      SplitFirstField(h, ' ');
      assert i == |h| ==> h[..i] == h;
      if |parts| < 2 then None
      else
        SplitFirstField(h[i + 1..], ' ');
        var j := IndexOf(h[i + 1..], ' ');
        assert parts[1] == h[i + 1..][..j];
        assert j < |h[i + 1..]| ==> h[i + 1 + j] == h[i + 1..][j];
        Some(parts[1])
  }

  /** The header the client sends: `Bearer <token>`. */
  function BearerHeader(token: string): string {
    "Bearer " + token
  }

  lemma BearerHeaderCarriesToken(token: string)
    requires IsCompactToken(token)
    ensures AccessTokenOf(Some(BearerHeader(token))) == Some(token)
  {
    var h := BearerHeader(token);
    assert h[6] == ' ' && h[..6] == "Bearer";
    assert IndexOf(h, ' ') == 6;
    assert h[7..] == token;
    SplitFirstField(h, ' ');
    SplitFirstField(token, ' ');
    assert token[..|token|] == token;
    assert Split(h, ' ')[1..] == [token];
  }

  /** Outcome of `authenticateToken`. */
  datatype GateResult = MissingToken | InvalidToken | Authorized(claims: Claims)
  {
    function Status(): int {
      match this
      case MissingToken => 401
      case InvalidToken => 403
      case Authorized(_) => 200
    }

    function Error(): string
      requires !Authorized?
    {
      if MissingToken? then "Access token required" else "Invalid or expired token"
    }
  }

  /** The header yields no usable token: it is absent, has no space, or the
      first space is last or followed by another space. */
  predicate NoTokenIn(header: Option<string>) {
    header.None? ||
    var h, i := header.value, IndexOf(header.value, ' ');
    i + 1 >= |h| || h[i + 1] == ' '
  }

  /** The decision `authenticateToken` makes, given the secret it verifies with. */
  function Gate(header: Option<string>, key: Option<string>, verify: Verifier): (r: GateResult)
    ensures r == MissingToken <==> NoTokenIn(header)
    ensures r.Status() == 401 <==> NoTokenIn(header)
    ensures r.Status() == 403 <==> !NoTokenIn(header) && verify(AccessTokenOf(header).value, key).None?
    ensures !r.Authorized? ==>
      r.Error() == (if NoTokenIn(header) then "Access token required" else "Invalid or expired token")
    ensures r != MissingToken ==>
      && AccessTokenOf(header).Some?
      && verify(AccessTokenOf(header).value, key) == (if r.Authorized? then Some(r.claims) else None)
  {
    var token := AccessTokenOf(header);
    if token.None? || token.value == "" then MissingToken
    else
      match verify(token.value, key)
      case None => InvalidToken
      case Some(c) => Authorized(c)
  }

  /** An incoming request, as far as the token gate looks at it. */
  class Request {
    const authorization: Option<string>
    var user: Option<Claims>

    constructor (authorization: Option<string>)
      ensures this.authorization == authorization && user == None
    {
      this.authorization := authorization;
      user := None;
    }

    /** `authenticateToken`: answers 401 or 403, or stores the verified claims
        in `req.user` and passes on; nothing else changes. */
    method Authenticate(cfg: Config, verify: Verifier) returns (r: GateResult)
      modifies this
      ensures r == Gate(authorization, AccessVerifyKeyAsWritten(cfg), verify)
      ensures user == (if r.Authorized? then Some(r.claims) else old(user))
    {
      var token := AccessTokenOf(authorization);
      if token.None? || token.value == "" {
        return MissingToken;
      }
      var verified := verify(token.value, AccessVerifyKeyAsWritten(cfg));
      if verified.None? {
        return InvalidToken;
      }
      user := verified;
      r := Authorized(verified.value);
    }
  }

  /** With the secret verification would need (the key of the finding on
      `authenticateToken`), an access token just issued, sent back as
      `Bearer <token>`, passes the gate with exactly the claims it was issued for. */
  lemma IssuedAccessTokenAuthorizes(userId: int, email: string, role: string, cfg: Config, sign: Signer, verify: Verifier, nowMs: int)
    requires SignerSound(sign, verify)
    ensures Gate(Some(BearerHeader(IssueTokens(userId, email, role, cfg, sign, nowMs).accessToken)), AccessVerifyKey(cfg), verify)
         == Authorized(AccessClaims(userId, email, role))
  {
    var t := IssueTokens(userId, email, role, cfg, sign, nowMs).accessToken;
    BearerHeaderCarriesToken(t);
  }

  /** The gate as written on an access token just issued: with `JWT_SECRET`
      set it passes with exactly the claims it was issued for; with the
      variable unset or empty it is refused with 403. */
  lemma IssuedAccessTokenAtGate(userId: int, email: string, role: string, cfg: Config, sign: Signer, verify: Verifier, nowMs: int)
    requires SignerSound(sign, verify)
    ensures var g := Gate(Some(BearerHeader(IssueTokens(userId, email, role, cfg, sign, nowMs).accessToken)), AccessVerifyKeyAsWritten(cfg), verify);
      && (Truthy(cfg.jwtSecret) ==> g == Authorized(AccessClaims(userId, email, role)))
      && (!Truthy(cfg.jwtSecret) ==> g == InvalidToken)
  {
    var t := IssueTokens(userId, email, role, cfg, sign, nowMs).accessToken;
    BearerHeaderCarriesToken(t);
  }

  /** A refresh token presented to the gate passes exactly when `JWT_SECRET`
      is set and equals the refresh signing secret, and is refused with 403
      otherwise; with both variables unset it is refused. */
  lemma RefreshTokenAtGate(userId: int, cfg: Config, sign: Signer, verify: Verifier, nowMs: int)
    requires SignerSound(sign, verify)
    ensures var g := Gate(Some(BearerHeader(IssueTokens(userId, "", "", cfg, sign, nowMs).refreshToken)), AccessVerifyKeyAsWritten(cfg), verify);
      && (g.Authorized? <==> cfg.jwtSecret == Some(RefreshSigningKey(cfg)))
      && (g.Authorized? ==> g.claims == RefreshClaims(userId))
      && (!g.Authorized? ==> g == InvalidToken)
      && (cfg.jwtSecret.None? && cfg.jwtRefreshSecret.None? ==> g == InvalidToken)
  {
    var t := IssueTokens(userId, "", "", cfg, sign, nowMs).refreshToken;
    BearerHeaderCarriesToken(t);
  }
}
