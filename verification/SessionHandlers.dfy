/**
 The login, refresh and logout handlers around the services: which call each presented token leads
 to, and why the tokens that handlers sign form an issuer as `FamilyProtocol` describes it.
 */
module SessionHandlers {
  import opened SessionModel
  import opened SessionServices
  import opened AuthHistory
  import opened MemoryStores
  import opened TokenManager
  import opened FamilyProtocol

  /** The hash of a token string; nothing is assumed of it but that it is a function. */
  type Hash = SignedToken -> string

  datatype Cookie = Kept | Cleared | Set(token: SignedToken)

  datatype Reply = Unauthorized | Mismatch | NotSigned | Served(answer: Answer)

  /** The call that a parsed refresh token and the token signed to succeed it lead to. */
  function RotationOf(m: Manager, hash: Hash, token: SignedToken, next: SignedToken, issued: int, clock: Clock): Call {
    var c := token.claims;
    RotateToken(c.userId, c.authVersion, c.jti, hash(token), next.claims.jti, hash(next), issued + m.refreshTtl, clock)
  }

  /** It presents one token by its claims and hash, and the other as successor with its own expiry. */
  lemma RotationPresentsBoth(m: Manager, hash: Hash, token: SignedToken, next: SignedToken, issued: int, clock: Clock)
    ensures var c := RotationOf(m, hash, token, next, issued, clock);
            && c.userId == token.claims.userId && c.authVersion == token.claims.authVersion
            && c.oldJti == token.claims.jti && c.oldHash == hash(token)
            && c.nextJti == next.claims.jti && c.nextHash == hash(next)
            && c.nextExpiresAt == issued + m.refreshTtl && c.clock == clock
  {
  }

  class SessionHandler {
    const manager: Manager
    const hash: Hash
    const auth: AuthService
    const store: MemoryStore

    constructor (manager: Manager, hash: Hash, auth: AuthService, store: MemoryStore)
      ensures this.manager == manager && this.hash == hash && this.auth == auth && this.store == store
    {
      this.manager, this.hash, this.auth, this.store := manager, hash, auth, store;
    }

    /** After the credentials were accepted: sign a refresh token and store the root of a new family. */
    method StoreLogin(userId: int, username: string, authVersion: int, jti: string, issued: int)
      returns (reply: Reply, cookie: Cookie)
      modifies auth.db
      ensures authVersion <= 0 ==> reply == NotSigned && cookie == Kept && auth.db.Contents() == old(auth.db.Contents())
      ensures authVersion > 0 ==>
                var token := manager.GenerateToken(userId, username, authVersion, Refresh, issued, jti).value;
                var call := StoreToken(userId, jti, jti, hash(token), issued + manager.refreshTtl);
                && (auth.db.Contents(), reply) ==
                   (Apply(old(auth.db.Contents()), call).0, Served(Apply(old(auth.db.Contents()), call).1))
                && cookie == if reply.answer.Ok? then Set(token) else Kept
    {
      var signed := manager.GenerateToken(userId, username, authVersion, Refresh, issued, jti);
      if signed.None? {
        return NotSigned, Kept;
      }
      var record := new TokenRecord(userId, jti, hash(signed.value), issued + manager.refreshTtl);
      var answer := auth.StoreRefreshToken(record);
      return Served(answer), if answer.Ok? then Set(signed.value) else Kept;
    }

    method RefreshTokens(token: Option<SignedToken>, nextJti: string, parsed: int, issued: int, clock: Clock)
      returns (reply: Reply, cookie: Cookie)
      modifies auth.db
      ensures token.None? || manager.ParseRefreshToken(token.value, parsed).None? ==>
                reply == Unauthorized && cookie == Cleared && auth.db.Contents() == old(auth.db.Contents())
      ensures token.Some? && manager.ParseRefreshToken(token.value, parsed).Some? ==>
                var c := token.value.claims;
                var next := manager.GenerateToken(c.userId, c.username, c.authVersion, Refresh, issued, nextJti).value;
                var call := RotationOf(manager, hash, token.value, next, issued, clock);
                && auth.db.Contents() == Apply(old(auth.db.Contents()), call).0
                && reply == Served(Apply(old(auth.db.Contents()), call).1)
                && cookie == if reply.answer.Ok? then Set(next) else Kept
    {
      if token.None? {
        return Unauthorized, Cleared;
      }
      var claims := manager.ParseRefreshToken(token.value, parsed);
      if claims.None? {
        return Unauthorized, Cleared;
      }
      var c := claims.value;
      var signed := manager.GenerateToken(c.userId, c.username, c.authVersion, Refresh, issued, nextJti);
      var next := signed.value;
      ghost var call := RotationOf(manager, hash, token.value, next, issued, clock);
      assert call == RotateToken(c.userId, c.authVersion, c.jti, hash(token.value), nextJti, hash(next),
                                 issued + manager.refreshTtl, clock);
      var record := new TokenRecord(c.userId, nextJti, hash(next), issued + manager.refreshTtl);
      var answer := auth.RotateRefreshToken(c.userId, c.authVersion, c.jti, hash(token.value), record, clock);
      return Served(answer), if answer.Ok? then Set(next) else Kept;
    }

    /** The access token, when one comes along and parses, is revoked before the refresh token. */
    method LogOut(token: Option<SignedToken>, access: Option<SignedToken>, parsed: int, now: int)
      returns (reply: Reply, cookie: Cookie)
      requires store.Valid() && store.clock <= now
      modifies auth.db, store
      ensures store.Valid()
      ensures var refresh := if token.None? then None else manager.ParseRefreshToken(token.value, parsed);
              var companion := if access.None? then None else manager.ParseAccessToken(access.value, parsed);
              if refresh.None? then
                reply == Unauthorized && cookie == Cleared &&
                auth.db.Contents() == old(auth.db.Contents()) && store.history == old(store.history)
              else if companion.Some? && companion.value.userId != refresh.value.userId then
                reply == Mismatch && cookie == Kept &&
                auth.db.Contents() == old(auth.db.Contents()) && store.history == old(store.history)
              else
                var call := RevokeToken(refresh.value.userId, refresh.value.jti, hash(token.value), now);
                && auth.db.Contents() == Apply(old(auth.db.Contents()), call).0
                && reply == Served(Apply(old(auth.db.Contents()), call).1)
                && cookie == (if reply.answer.Ok? then Cleared else Kept)
                && store.history == old(store.history) +
                     if companion.None? || companion.value.expiresAt <= now then []
                     else [Revocation(companion.value.jti, now, companion.value.expiresAt - now)]
    {
      if token.None? {
        return Unauthorized, Cleared;
      }
      var refresh := manager.ParseRefreshToken(token.value, parsed);
      if refresh.None? {
        return Unauthorized, Cleared;
      }
      var claims := refresh.value;
      if access.Some? {
        var companion := manager.ParseAccessToken(access.value, parsed);
        if companion.Some? {
          if companion.value.userId != claims.userId {
            return Mismatch, Kept;
          }
          store.RevokeAccessToken(companion.value.jti, companion.value.expiresAt - now, now);
        }
      }
      var answer := auth.RevokeRefreshToken(claims.userId, claims.jti, hash(token.value), now);
      return Served(answer), if answer.Ok? then Cleared else Kept;
    }
  }

  // ---------- the issuer that the handlers are ----------

  /** The issuer's record of a refresh token that the manager signed at the recorded time. */
  ghost predicate Signed(iss: Issuer, m: Manager, hash: Hash, token: SignedToken) {
    var c := token.claims;
    && iss.refreshTtl == m.refreshTtl && c.jti in iss.claims
    && iss.claims[c.jti].userId == c.userId && iss.claims[c.jti].authVersion == c.authVersion
    && iss.claims[c.jti].tokenHash == hash(token)
    && (exists username ::
          m.GenerateToken(c.userId, username, c.authVersion, Refresh, iss.claims[c.jti].issuedAt, c.jti) == Some(token))
  }

  /** The issuer after one more token. */
  function WithToken(iss: Issuer, hash: Hash, token: SignedToken, issued: int, parent: Option<string>): Issuer {
    var c := token.claims;
    iss.(claims := iss.claims[c.jti := Claims(c.userId, c.authVersion, hash(token), issued, parent)])
  }

  /**
   Signing keeps the issuer well formed: a login signs for a valid user, a refresh for the claims
   it has just parsed; JTI and hash are new.
   */
  lemma SigningKeepsIssuer(iss: Issuer, m: Manager, hash: Hash, presented: Option<SignedToken>, username: string,
                           userId: int, authVersion: int, jti: string, parsed: int, issued: int)
    requires iss.WellFormed() && iss.refreshTtl == m.refreshTtl && userId > 0 && authVersion > 0
    requires var token := m.GenerateToken(userId, username, authVersion, Refresh, issued, jti).value;
             jti != "" && jti !in iss.claims && hash(token) != "" &&
             forall j | j in iss.claims :: iss.claims[j].tokenHash != hash(token)
    requires presented.Some? ==>
               && Signed(iss, m, hash, presented.value) && m.ParseRefreshToken(presented.value, parsed).Some?
               && userId == presented.value.claims.userId && authVersion == presented.value.claims.authVersion
               && iss.claims[presented.value.claims.jti].issuedAt <= issued
    ensures var token := m.GenerateToken(userId, username, authVersion, Refresh, issued, jti).value;
            var parent := if presented.None? then None else Some(presented.value.claims.jti);
            var iss' := WithToken(iss, hash, token, issued, parent);
            iss'.WellFormed() && Signed(iss', m, hash, token)
  {
    var token := m.GenerateToken(userId, username, authVersion, Refresh, issued, jti).value;
    var parent := if presented.None? then None else Some(presented.value.claims.jti);
    var iss' := WithToken(iss, hash, token, issued, parent);
    forall k | k in iss'.claims && iss'.claims[k].parent.Some?
      ensures iss'.Succeeds(iss'.claims[k].parent.value, k)
    {
      if k != jti {
        assert iss.Succeeds(iss.claims[k].parent.value, k);
      }
    }
  }

  /** The calls of the handlers are the ones an issuer sanctions. */
  lemma HandlerCallsAreSanctioned(iss: Issuer, m: Manager, hash: Hash, token: SignedToken, next: SignedToken,
                                  clock: Clock, now: int)
    requires Signed(iss, m, hash, token) && Signed(iss, m, hash, next)
    requires iss.claims[next.claims.jti].parent == Some(token.claims.jti)
    ensures iss.Sanctions(RotationOf(m, hash, token, next, iss.claims[next.claims.jti].issuedAt, clock))
    ensures iss.Sanctions(RevokeToken(token.claims.userId, token.claims.jti, hash(token), now))
    ensures iss.claims[token.claims.jti].parent.None? ==>
              var c := token.claims;
              iss.Sanctions(StoreToken(c.userId, c.jti, c.jti, hash(token), iss.claims[c.jti].issuedAt + m.refreshTtl))
  {
  }
}
