/** Access tokens: parsing with leeway, revocation until expiry, and what remains between the two. */
module AccessSessions {
  import opened SessionModel
  import opened AuthHistory
  import opened StoreAgreement
  import opened Text
  import opened TokenManager

  /** The middleware lets a request with this token through. */
  predicate Accepted(m: Manager, users: Users, h: History, token: SignedToken, now: int) {
    var c := m.ParseAccessToken(token, now);
    c.Some? &&
    ValidateAccess(c.value.userId, c.value.authVersion, c.value.jti, Lookup(users, c.value.userId),
                   IsRevoked(h, c.value.jti, now)).Ok?
  }

  /** A request is let through exactly with a parsed token of an active user at its version, unless it is revoked. */
  lemma AcceptedExactly(m: Manager, users: Users, h: History, token: SignedToken, now: int)
    ensures var c := token.claims;
            Accepted(m, users, h, token, now) <==>
            && m.ParseAccessToken(token, now).Some?
            && c.userId in users && users[c.userId].status == Active && users[c.userId].authVersion == c.authVersion
            && !(RevokedUntil(h, c.jti).Some? && now < RevokedUntil(h, c.jti).value)
  {
  }

  /** What the service answers for claims, a user row and the store's answer. */
  lemma SessionIsValidExactly(userId: int, authVersion: int, jti: string, users: Users, revoked: bool)
    ensures ValidateAccess(userId, authVersion, jti, Lookup(users, userId), revoked) ==
            if userId > 0 && authVersion > 0 && Trim(jti) != "" && !revoked && userId in users &&
               users[userId].status == Active && users[userId].authVersion == authVersion
            then Ok else SessionInvalid
  {
  }

  /** Only a revocation of the JTI with a positive lifetime changes its end. */
  lemma CallEndsRevocation(b: Backend, h: History, t: Timed, jti: string)
    ensures RevokedUntil(h + Trace(b, t), jti) ==
            if t.call.Revoke? && t.call.jti == jti && t.call.ttl > 0 then Some(t.now + t.call.ttl)
            else RevokedUntil(h, jti)
  {
    if Trace(b, t) == [] {
      assert h + [] == h;
    } else {
      var e := Trace(b, t)[0];
      assert Trace(b, t) == [e];
      AfterRevocation(h, e, jti);
    }
  }

  lemma {:induction false} UnrevokedStays(b: Backend, calls: seq<Timed>, jti: string)
    requires forall i | 0 <= i < |calls| && calls[i].call.Revoke? :: calls[i].call.jti != jti
    ensures RevokedUntil(HistoryOf(b, calls), jti).None?
  {
    if calls != [] {
      var init, last := calls[..|calls| - 1], calls[|calls| - 1];
      UnrevokedStays(b, init, jti);
      CallEndsRevocation(b, HistoryOf(b, init), last, jti);
    }
  }

  /** A request with a generated access token, when and for whom it parses. */
  lemma GeneratedTokenIsAccepted(m: Manager, users: Users, h: History, userId: int, username: string, authVersion: int,
                                 issued: int, jti: string, now: int)
    requires authVersion > 0 && RevokedUntil(h, jti).None?
    ensures var token := m.GenerateToken(userId, username, authVersion, Access, issued, jti).value;
            Accepted(m, users, h, token, now) <==>
            && m.ParseAccessToken(token, now).Some?
            && userId in users && users[userId].status == Active && users[userId].authVersion == authVersion
  {
    AcceptedExactly(m, users, h, m.GenerateToken(userId, username, authVersion, Access, issued, jti).value, now);
  }

  /**
   A token that nobody revokes is let through exactly during its life and the leeway of 30 seconds,
   while its user is active at its version, whatever else the store is asked.
   */
  lemma UnrevokedTokenIsAccepted(m: Manager, b: Backend, calls: seq<Timed>, users: Users, userId: int,
                                 username: string, authVersion: int, issued: int, jti: string, now: int)
    requires userId > 0 && authVersion > 0 && Trim(username) != "" && Trim(jti) != ""
    requires forall i | 0 <= i < |calls| && calls[i].call.Revoke? :: calls[i].call.jti != jti
    ensures var token := m.GenerateToken(userId, username, authVersion, Access, issued, jti).value;
            var end := issued + m.accessTtl;
            Accepted(m, users, HistoryOf(b, calls), token, now) <==>
            && issued - issued % 1000 - 30_000 <= now < end - end % 1000 + 30_000
            && userId in users && users[userId].status == Active && users[userId].authVersion == authVersion
  {
    AccessTokenParsesInTime(m, userId, username, authVersion, issued, jti, now);
    UnrevokedStays(b, calls, jti);
    GeneratedTokenIsAccepted(m, users, HistoryOf(b, calls), userId, username, authVersion, issued, jti, now);
  }

  /** `RevokeAccessToken`: the store keeps the revocation until the expiry in the claims. */
  function RevokeUntilExpiry(c: UserClaims, now: int): Timed {
    Timed(Revoke(c.jti, c.expiresAt - now), now)
  }

  /** Both stores then hold the token revoked from now to its expiry, and a token past it leaves no trace. */
  lemma RevocationEndsAtExpiry(b: Backend, calls: seq<Timed>, c: UserClaims, at: int, now: int)
    requires at <= now
    ensures var h := HistoryOf(b, calls + [RevokeUntilExpiry(c, at)]);
            if at < c.expiresAt then IsRevoked(h, c.jti, now) <==> now < c.expiresAt else h == HistoryOf(b, calls)
  {
    HistorySnoc(b, calls, RevokeUntilExpiry(c, at));
    var h := HistoryOf(b, calls);
    if at < c.expiresAt {
      AfterRevocation(h, Revocation(c.jti, at, c.expiresAt - at), c.jti);
    } else {
      assert h + [] == h;
    }
  }

  /** Every revocation is asked for until the expiry of its token. */
  predicate RevokesUntilExpiry(calls: seq<Timed>, expiries: map<string, int>) {
    forall i | 0 <= i < |calls| && calls[i].call.Revoke? ::
      calls[i].call.jti in expiries && calls[i].call.ttl == expiries[calls[i].call.jti] - calls[i].now
  }

  /** Other calls, repeated revocations included, neither shorten nor lengthen a revocation. */
  lemma {:induction false} RevocationLasts(b: Backend, calls: seq<Timed>, i: nat, expiries: map<string, int>)
    requires RevokesUntilExpiry(calls, expiries)
    requires i < |calls| && calls[i].call.Revoke? && calls[i].call.ttl > 0
    ensures RevokedUntil(HistoryOf(b, calls), calls[i].call.jti) == Some(expiries[calls[i].call.jti])
  {
    var init, last := calls[..|calls| - 1], calls[|calls| - 1];
    if i < |calls| - 1 {
      RevocationLasts(b, init, i, expiries);
    }
    CallEndsRevocation(b, HistoryOf(b, init), last, calls[i].call.jti);
  }

  /** The token as the manager issued it, revoked in call `i` before its expiry. */
  ghost predicate RevokedInTime(m: Manager, token: SignedToken, calls: seq<Timed>, i: nat, expiries: map<string, int>) {
    var c := token.claims;
    && token.secret == m.secret && c.issuer == m.issuer && c.tokenType.Access?
    && RevokesUntilExpiry(calls, expiries) && c.jti in expiries && expiries[c.jti] == c.expiresAt
    && i < |calls| && calls[i] == RevokeUntilExpiry(c, calls[i].now) && calls[i].now < c.expiresAt
  }

  /** From the revocation to the expiry the token is refused, whatever the store was asked meanwhile. */
  lemma RevokedTokenIsRefusedUntilExpiry(
    m: Manager, b: Backend, calls: seq<Timed>, i: nat, expiries: map<string, int>, users: Users, token: SignedToken,
    now: int)
    requires RevokedInTime(m, token, calls, i, expiries)
    requires calls[i].now <= now < token.claims.expiresAt
    ensures !Accepted(m, users, HistoryOf(b, calls), token, now)
  {
    RevocationLasts(b, calls, i, expiries);
  }

  /**
   A revoked token is let through exactly from its expiry to the end of the leeway: the parser
   still takes it, the store no longer knows of it.
   */
  lemma RevokedTokenIsAcceptedOnlyInLeeway(
    m: Manager, b: Backend, calls: seq<Timed>, i: nat, expiries: map<string, int>, users: Users, token: SignedToken,
    now: int)
    requires RevokedInTime(m, token, calls, i, expiries) && calls[i].now <= now
    ensures var c := token.claims;
            Accepted(m, users, HistoryOf(b, calls), token, now) <==>
            && m.ParseAccessToken(token, now).Some?
            && c.userId in users && users[c.userId].status == Active && users[c.userId].authVersion == c.authVersion
            && c.expiresAt <= now < c.expiresAt + 30_000
  {
    RevocationLasts(b, calls, i, expiries);
  }

  /** An instance: issued at 0 for a minute, revoked at 0, refused until 60 seconds and let through then. */
  lemma LeewayReopensRevokedToken(b: Backend)
    ensures var m := Manager("secret", "issuer", 60 * SECOND, 420 * SECOND);
            var token := m.GenerateToken(1, "u", 1, Access, 0, "j").value;
            var calls := [RevokeUntilExpiry(token.claims, 0)];
            var users := map[1 := User(PasswordHash(0, ""), Active, 1)];
            && !Accepted(m, users, HistoryOf(b, calls), token, 60 * SECOND - 1)
            && Accepted(m, users, HistoryOf(b, calls), token, 60 * SECOND)
  {
    var m := Manager("secret", "issuer", 60 * SECOND, 420 * SECOND);
    var token := m.GenerateToken(1, "u", 1, Access, 0, "j").value;
    var calls := [RevokeUntilExpiry(token.claims, 0)];
    var users := map[1 := User(PasswordHash(0, ""), Active, 1)];
    var expiries := map["j" := 60 * SECOND];
    assert RevokedInTime(m, token, calls, 0, expiries);
    RevokedTokenIsAcceptedOnlyInLeeway(m, b, calls, 0, expiries, users, token, 60 * SECOND - 1);
    RevokedTokenIsAcceptedOnlyInLeeway(m, b, calls, 0, expiries, users, token, 60 * SECOND);
  }
}
