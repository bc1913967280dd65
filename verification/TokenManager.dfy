/** Signing and parsing of JWTs: a signed token is its claims under a secret. Times are milliseconds. */
module TokenManager {
  import opened SessionModel
  import opened AuthHistory
  import opened Text

  const LEEWAY := 30 * SECOND

  datatype TokenType = Access | Refresh

  datatype UserClaims = UserClaims(
    userId: int, username: string, tokenType: TokenType, authVersion: int, jti: string, issuer: string,
    issuedAt: int, expiresAt: int)

  datatype SignedToken = SignedToken(secret: string, claims: UserClaims)

  /** A numeric date keeps whole seconds. */
  function NumericDate(time: int): int {
    time - time % SECOND
  }

  datatype Manager = Manager(secret: string, issuer: string, accessTtl: int, refreshTtl: int) {
    function GenerateToken(userId: int, username: string, authVersion: int, tokenType: TokenType, now: int, jti: string)
      : Option<SignedToken>
    {
      if authVersion <= 0 then None
      else
        var ttl := if tokenType.Access? then accessTtl else refreshTtl;
        Some(SignedToken(secret, UserClaims(userId, username, tokenType, authVersion, jti, issuer,
                                            NumericDate(now), NumericDate(now + ttl))))
    }

    function ParseToken(token: SignedToken, now: int): Option<UserClaims> {
      var c := token.claims;
      if token.secret != secret || c.issuer != issuer then None
      else if c.expiresAt + LEEWAY <= now || now < c.issuedAt - LEEWAY then None
      else if c.userId <= 0 || Trim(c.username) == "" || c.authVersion <= 0 || Trim(c.jti) == "" then None
      else Some(c)
    }

    function ParseAccessToken(token: SignedToken, now: int): Option<UserClaims> {
      var c := ParseToken(token, now);
      if c.Some? && c.value.tokenType.Access? then c else None
    }

    function ParseRefreshToken(token: SignedToken, now: int): Option<UserClaims> {
      var c := ParseToken(token, now);
      if c.Some? && c.value.tokenType.Refresh? then c else None
    }
  }

  /**
   A generated token parses, with the claims it was generated from, exactly from 30 seconds before
   its issue to 30 seconds after its expiry, both cut to whole seconds, only as its own type, and
   only for a valid user with a name and a JTI. Times are milliseconds.
   */
  lemma GeneratedTokenParsesExactly(
    m: Manager, userId: int, username: string, authVersion: int, tokenType: TokenType, issued: int, jti: string,
    now: int)
    requires authVersion > 0
    ensures var end := issued + if tokenType.Access? then m.accessTtl else m.refreshTtl;
            var token := m.GenerateToken(userId, username, authVersion, tokenType, issued, jti).value;
            var parses := && issued - issued % 1000 - 30_000 <= now < end - end % 1000 + 30_000
                          && userId > 0 && Trim(username) != "" && Trim(jti) != "";
            && (m.ParseAccessToken(token, now).Some? <==> tokenType.Access? && parses)
            && (m.ParseRefreshToken(token, now).Some? <==> tokenType.Refresh? && parses)
            && (parses ==>
                  var c := if tokenType.Access? then m.ParseAccessToken(token, now)
                           else m.ParseRefreshToken(token, now);
                  && c.Some? && c.value.userId == userId && c.value.username == username
                  && c.value.authVersion == authVersion && c.value.jti == jti && c.value.expiresAt == end - end % 1000)
  {
  }

  /** An access token of a valid user with a name and a JTI parses exactly in its life and the leeway. */
  lemma AccessTokenParsesInTime(m: Manager, userId: int, username: string, authVersion: int, issued: int, jti: string,
                                now: int)
    requires userId > 0 && authVersion > 0 && Trim(username) != "" && Trim(jti) != ""
    ensures var end := issued + m.accessTtl;
            var token := m.GenerateToken(userId, username, authVersion, Access, issued, jti).value;
            m.ParseAccessToken(token, now).Some? <==>
            issued - issued % 1000 - 30_000 <= now < end - end % 1000 + 30_000
  {
    GeneratedTokenParsesExactly(m, userId, username, authVersion, Access, issued, jti, now);
  }

  /** What parses carries the manager's secret and issuer and a positive version, and keeps its claims. */
  lemma ParsedTokenIsSigned(m: Manager, token: SignedToken, now: int)
    requires m.ParseAccessToken(token, now).Some? || m.ParseRefreshToken(token, now).Some?
    ensures token.secret == m.secret && token.claims.issuer == m.issuer && token.claims.authVersion > 0
    ensures m.ParseAccessToken(token, now).Some? ==> m.ParseAccessToken(token, now).value == token.claims
    ensures m.ParseRefreshToken(token, now).Some? ==> m.ParseRefreshToken(token, now).value == token.claims
  {
  }

  /** Another secret or issuer never parses. */
  lemma ForeignTokenNeverParses(m: Manager, n: Manager, token: SignedToken, now: int, later: int)
    requires n.ParseToken(token, now).Some? && (m.secret != n.secret || m.issuer != n.issuer)
    ensures m.ParseToken(token, later).None?
  {
  }
}
