/** backend/pkg/jwt/jwt.go: issuing, validating and refreshing token pairs. Instants and durations are
    in nanoseconds; a NumericDate claim is in whole seconds (RFC 7519, section 2). HMAC is symbolic:
    a signature is equal only to that of the same algorithm, secret and claims. */
module Tokens {
  import opened Prelude

  const SECOND: int := 1_000_000_000

  const ISSUER := "skypost-delivery-orchestrator"

  datatype TokenType = Access | Refresh

  /** The text of the user_id claim: the canonical text of a UUID, or a text that is none. */
  datatype UserText = CanonicalUuid(id: nat) | NoUuid(text: string)

  datatype Claims = Claims(userId: UserText, email: string, fullName: string, role: string, tokenType: TokenType,
                           expiresAt: int, issuedAt: int, notBefore: int, issuer: string)

  datatype Algorithm = HS256 | HS384 | HS512 | NotHmac

  datatype Signature = Hmac(algorithm: Algorithm, secret: string, claims: Claims) | NoSignature(bytes: string)

  datatype Token = Malformed | Token(algorithm: Algorithm, claims: Claims, signature: Signature)

  datatype JWTService = JWTService(accessSecret: string, refreshSecret: string, accessTTL: int, refreshTTL: int)

  datatype TokenPair = TokenPair(accessToken: Token, refreshToken: Token, accessExpiresAt: int, refreshExpiresAt: int)

  datatype TokenError = ErrMalformed | ErrSigningMethod | ErrSignature | ErrClaims | ErrTokenType | ErrUserId

  datatype User = User(id: nat, email: string, name: string, role: string)

  /** jwt.NewNumericDate and time.Unix: the whole seconds, rounded down. */
  function NumericDate(t: int): int {
    t / SECOND
  }

  function FloorSecond(t: int): int {
    NumericDate(t) * SECOND
  }

  function ClaimsOf(user: User, tokenType: TokenType, now: int, ttl: int): Claims {
    Claims(CanonicalUuid(user.id), user.email, user.name, user.role, tokenType,
           NumericDate(now + ttl), NumericDate(now), NumericDate(now), ISSUER)
  }

  function Signed(claims: Claims, secret: string): Token {
    Token(HS256, claims, Hmac(HS256, secret, claims))
  }

  function GenerateTokenPair(j: JWTService, user: User, now: int): TokenPair {
    TokenPair(Signed(ClaimsOf(user, Access, now, j.accessTTL), j.accessSecret),
              Signed(ClaimsOf(user, Refresh, now, j.refreshTTL), j.refreshSecret),
              NumericDate(now + j.accessTTL), NumericDate(now + j.refreshTTL))
  }

  /** jwt.ParseWithClaims with the HMAC key function: format, method, signature, then the time claims
      (RFC 7519, sections 4.1.4 and 4.1.5). */
  function ParseWithClaims(token: Token, secret: string, now: int): Result<Claims, TokenError> {
    if token.Malformed? then Err(ErrMalformed)
    else if token.algorithm == NotHmac then Err(ErrSigningMethod)
    else if token.signature != Hmac(token.algorithm, secret, token.claims) then Err(ErrSignature)
    else if !(now < token.claims.expiresAt * SECOND) || now < token.claims.notBefore * SECOND then Err(ErrClaims)
    else Ok(token.claims)
  }

  function ValidateAccessToken(j: JWTService, token: Token, now: int): Result<Claims, TokenError> {
    var parsed := ParseWithClaims(token, j.accessSecret, now);
    if parsed.Err? then parsed
    else if parsed.value.tokenType != Access then Err(ErrTokenType) else parsed
  }

  function ValidateRefreshToken(j: JWTService, token: Token, now: int): Result<Claims, TokenError> {
    var parsed := ParseWithClaims(token, j.refreshSecret, now);
    if parsed.Err? then parsed
    else if parsed.value.tokenType != Refresh then Err(ErrTokenType) else parsed
  }

  /** The clock is read twice: to validate the token, and later to issue the new pair. */
  function RefreshTokens(j: JWTService, token: Token, validatedAt: int, issuedAt: int): Result<TokenPair, TokenError> {
    match ValidateRefreshToken(j, token, validatedAt)
    case Err(e) => Err(e)
    case Ok(claims) =>
      if claims.userId.NoUuid? then Err(ErrUserId)
      else Ok(GenerateTokenPair(j, User(claims.userId.id, claims.email, claims.fullName, claims.role), issuedAt))
  }

  // ---- one pair ---------------------------------------------------------------------------------

  lemma FloorIsBelow(t: int)
    ensures t - SECOND < FloorSecond(t) <= t
  {
  }

  /** A token validates exactly from the second of its issue until the second of its expiry; its life
      from the issue is more than the TTL less a second and at most the TTL; the expiry reported beside
      it is its exp claim. */
  lemma AcceptanceWindow(j: JWTService, user: User, issued: int, now: int)
    ensures
      var pair := GenerateTokenPair(j, user, issued);
      && (ValidateAccessToken(j, pair.accessToken, now).Ok? <==> FloorSecond(issued) <= now < FloorSecond(issued + j.accessTTL))
      && (ValidateRefreshToken(j, pair.refreshToken, now).Ok? <==> FloorSecond(issued) <= now < FloorSecond(issued + j.refreshTTL))
      && j.accessTTL - SECOND < FloorSecond(issued + j.accessTTL) - issued <= j.accessTTL
      && j.refreshTTL - SECOND < FloorSecond(issued + j.refreshTTL) - issued <= j.refreshTTL
      && pair.accessExpiresAt == pair.accessToken.claims.expiresAt
      && pair.refreshExpiresAt == pair.refreshToken.claims.expiresAt
  {
    FloorIsBelow(issued + j.accessTTL);
    FloorIsBelow(issued + j.refreshTTL);
  }

  /** The claims are about this user. */
  predicate IsAbout(claims: Claims, user: User) {
    && claims.userId == CanonicalUuid(user.id)
    && claims.email == user.email && claims.fullName == user.name && claims.role == user.role
  }

  /** What the validators return for a pair issued to a user, while it is valid: that user, with the role the
      user had, the type of the validator, the second of the issue and the issuer. */
  lemma IssuedClaims(j: JWTService, user: User, issued: int, now: int)
    ensures
      var pair := GenerateTokenPair(j, user, issued);
      && (FloorSecond(issued) <= now < FloorSecond(issued + j.accessTTL) ==>
            && var access := ValidateAccessToken(j, pair.accessToken, now);
            && access.Ok? && IsAbout(access.value, user) && access.value.tokenType == Access
            && access.value.issuedAt * SECOND == FloorSecond(issued) && access.value.issuer == "skypost-delivery-orchestrator")
      && (FloorSecond(issued) <= now < FloorSecond(issued + j.refreshTTL) ==>
            && var refresh := ValidateRefreshToken(j, pair.refreshToken, now);
            && refresh.Ok? && IsAbout(refresh.value, user) && refresh.value.tokenType == Refresh
            && refresh.value.issuedAt * SECOND == FloorSecond(issued) && refresh.value.issuer == "skypost-delivery-orchestrator")
  {
  }

  predicate IsSigned(token: Token, secret: string) {
    token.Token? && token.algorithm != NotHmac && token.signature == Hmac(token.algorithm, secret, token.claims)
  }

  predicate IsInForce(claims: Claims, now: int) {
    claims.notBefore * SECOND <= now < claims.expiresAt * SECOND
  }

  /** A validator accepts exactly what was signed by HMAC under its secret as it stands, has its type and is in
      force, and returns the claims that were signed. */
  lemma AcceptedIff(j: JWTService, token: Token, now: int)
    ensures ValidateAccessToken(j, token, now).Ok? <==>
      IsSigned(token, j.accessSecret) && IsInForce(token.claims, now) && token.claims.tokenType == Access
    ensures ValidateAccessToken(j, token, now).Ok? ==> ValidateAccessToken(j, token, now).value == token.claims
    ensures ValidateRefreshToken(j, token, now).Ok? <==>
      IsSigned(token, j.refreshSecret) && IsInForce(token.claims, now) && token.claims.tokenType == Refresh
    ensures ValidateRefreshToken(j, token, now).Ok? ==> ValidateRefreshToken(j, token, now).value == token.claims
  {
  }

  /** What a refusal says: the first of format, method, signature, time and type that is wrong. */
  lemma RefusedIff(j: JWTService, token: Token, now: int)
    ensures
      var r := ValidateAccessToken(j, token, now);
      && (r == Err(ErrMalformed) <==> token == Malformed)
      && (r == Err(ErrSigningMethod) <==> token.Token? && token.algorithm == NotHmac)
      && (r == Err(ErrSignature) <==> token.Token? && token.algorithm != NotHmac && !IsSigned(token, j.accessSecret))
      && (r == Err(ErrClaims) <==> IsSigned(token, j.accessSecret) && !IsInForce(token.claims, now))
      && (r == Err(ErrTokenType) <==>
            IsSigned(token, j.accessSecret) && IsInForce(token.claims, now) && token.claims.tokenType != Access)
    ensures
      var r := ValidateRefreshToken(j, token, now);
      && (r == Err(ErrMalformed) <==> token == Malformed)
      && (r == Err(ErrSigningMethod) <==> token.Token? && token.algorithm == NotHmac)
      && (r == Err(ErrSignature) <==> token.Token? && token.algorithm != NotHmac && !IsSigned(token, j.refreshSecret))
      && (r == Err(ErrClaims) <==> IsSigned(token, j.refreshSecret) && !IsInForce(token.claims, now))
      && (r == Err(ErrTokenType) <==>
            IsSigned(token, j.refreshSecret) && IsInForce(token.claims, now) && token.claims.tokenType != Refresh)
  {
  }

  // ---- chains of refreshes ------------------------------------------------------------------------

  /** The moments of one refresh. */
  datatype Moment = Moment(validatedAt: int, issuedAt: int)

  /** Each refresh uses the refresh token the one before it returned. */
  function Chain(j: JWTService, first: TokenPair, moments: seq<Moment>): Result<TokenPair, TokenError> {
    if moments == [] then Ok(first)
    else
      match Chain(j, first, moments[..|moments| - 1])
      case Err(e) => Err(e)
      case Ok(pair) =>
        RefreshTokens(j, pair.refreshToken, moments[|moments| - 1].validatedAt, moments[|moments| - 1].issuedAt)
  }

  /** When the last pair of the chain was issued. */
  function LastIssue(issued: int, moments: seq<Moment>): int {
    if moments == [] then issued else moments[|moments| - 1].issuedAt
  }

  /** Each refresh comes within the validity of the token before it. */
  predicate InTime(j: JWTService, issued: int, moments: seq<Moment>) {
    moments == [] ||
    (var before := LastIssue(issued, moments[..|moments| - 1]);
     && InTime(j, issued, moments[..|moments| - 1])
     && FloorSecond(before) <= moments[|moments| - 1].validatedAt < FloorSecond(before + j.refreshTTL))
  }

  /** Time lost between validating and issuing, over the chain. */
  function Delay(moments: seq<Moment>): int {
    if moments == [] then 0
    else Delay(moments[..|moments| - 1]) + (moments[|moments| - 1].issuedAt - moments[|moments| - 1].validatedAt)
  }

  /** A chain succeeds exactly when every refresh is in time, and then ends in a freshly issued pair
      for the very same user, email, name and role. */
  lemma {:induction false} ChainKeepsTheUser(j: JWTService, user: User, issued: int, moments: seq<Moment>)
    ensures Chain(j, GenerateTokenPair(j, user, issued), moments).Ok? <==> InTime(j, issued, moments)
    ensures InTime(j, issued, moments) ==>
      Chain(j, GenerateTokenPair(j, user, issued), moments).value == GenerateTokenPair(j, user, LastIssue(issued, moments))
    decreases |moments|
  {
    if moments != [] {
      ChainKeepsTheUser(j, user, issued, moments[..|moments| - 1]);
      AcceptanceWindow(j, user, LastIssue(issued, moments[..|moments| - 1]), moments[|moments| - 1].validatedAt);
    }
  }

  /** So at the end of every chain that succeeds the validators return the user the first pair was issued to. */
  lemma ChainEndsWithTheUser(j: JWTService, user: User, issued: int, moments: seq<Moment>, now: int)
    requires InTime(j, issued, moments)
    ensures
      var pair := Chain(j, GenerateTokenPair(j, user, issued), moments);
      var last := LastIssue(issued, moments);
      && pair.Ok?
      && (FloorSecond(last) <= now < FloorSecond(last + j.accessTTL) ==>
            && var access := ValidateAccessToken(j, pair.value.accessToken, now);
            && access.Ok? && IsAbout(access.value, user))
      && (FloorSecond(last) <= now < FloorSecond(last + j.refreshTTL) ==>
            && var refresh := ValidateRefreshToken(j, pair.value.refreshToken, now);
            && refresh.Ok? && IsAbout(refresh.value, user))
  {
    ChainKeepsTheUser(j, user, issued, moments);
    IssuedClaims(j, user, LastIssue(issued, moments), now);
    hide ValidateAccessToken, ValidateRefreshToken, GenerateTokenPair, IsAbout;
  }

  /** A refresh goes through exactly with a token the refresh validator accepts whose user id is a UUID, and
      then issues a pair to the user the token names. */
  lemma RefreshIff(j: JWTService, token: Token, validatedAt: int, issuedAt: int, now: int)
    ensures
      var claims, refreshed := ValidateRefreshToken(j, token, validatedAt), RefreshTokens(j, token, validatedAt, issuedAt);
      && (refreshed.Ok? <==> claims.Ok? && claims.value.userId.CanonicalUuid?)
      && (claims.Err? ==> refreshed == Err(claims.error))
      && (claims.Ok? && claims.value.userId.NoUuid? ==> refreshed == Err(ErrUserId))
      && (refreshed.Ok? && FloorSecond(issuedAt) <= now < FloorSecond(issuedAt + j.accessTTL) ==>
            && var access := ValidateAccessToken(j, refreshed.value.accessToken, now);
            && access.Ok? && access.value.userId == claims.value.userId && access.value.email == claims.value.email
            && access.value.fullName == claims.value.fullName && access.value.role == claims.value.role)
  {
    var claims := ValidateRefreshToken(j, token, validatedAt);
    if claims.Ok? && claims.value.userId.CanonicalUuid? {
      var user := User(claims.value.userId.id, claims.value.email, claims.value.fullName, claims.value.role);
      IssuedClaims(j, user, issuedAt, now);
    }
    hide ValidateAccessToken, ValidateRefreshToken, GenerateTokenPair;
  }

  /** However many refreshes: the pair's refresh token expires no later than one TTL for the first
      issue and one for each refresh, plus the time lost between validating and issuing. */
  lemma {:induction false} ChainReach(j: JWTService, issued: int, moments: seq<Moment>)
    requires InTime(j, issued, moments)
    ensures LastIssue(issued, moments) <= issued + |moments| * j.refreshTTL + Delay(moments)
    ensures FloorSecond(LastIssue(issued, moments) + j.refreshTTL) <= issued + (|moments| + 1) * j.refreshTTL + Delay(moments)
    decreases |moments|
  {
    FloorIsBelow(LastIssue(issued, moments) + j.refreshTTL);
    if moments != [] {
      ChainReach(j, issued, moments[..|moments| - 1]);
    }
  }

  /** No pair of any chain crosses over: its access token is never a refresh token nor the reverse. */
  lemma ChainNeverCrosses(j: JWTService, user: User, issued: int, moments: seq<Moment>, now: int)
    requires Chain(j, GenerateTokenPair(j, user, issued), moments).Ok?
    ensures
      var pair := Chain(j, GenerateTokenPair(j, user, issued), moments).value;
      ValidateRefreshToken(j, pair.accessToken, now).Err? && ValidateAccessToken(j, pair.refreshToken, now).Err?
  {
    ChainKeepsTheUser(j, user, issued, moments);
    var pair := GenerateTokenPair(j, user, LastIssue(issued, moments));
    hide ValidateAccessToken, ValidateRefreshToken;
    AcceptedIff(j, pair.accessToken, now);
    AcceptedIff(j, pair.refreshToken, now);
  }
}
