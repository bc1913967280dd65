/**
 Runs of the handlers: tokens are signed at one time and stored, rotated or revoked at a later one,
 in any order. Every such run is a run of calls as `FamilyProtocol` has them.
 */
module HandlerRuns {
  import opened SessionModel
  import opened TokenManager
  import opened FamilyProtocol
  import opened FamilyTheorems
  import opened SessionHandlers

  /** The tables, the refresh tokens signed so far, the calls made so far, and the clock of signing. */
  datatype Server = Server(db: Database, iss: Issuer, signed: set<SignedToken>, calls: seq<Call>, clock: int)

  /** Nobody but the manager signs under its secret, so a presented token that parses is a signed one. */
  datatype Event =
    | SignLogin(userId: int, username: string, version: int, jti: string, issued: int)
    | StoreLogin(token: SignedToken)
    | SignNext(presented: SignedToken, parsed: int, jti: string, issued: int)
    | Refresh(presented: SignedToken, next: SignedToken, clock: Clock)
    | LogOut(presented: SignedToken, parsed: int, now: int)
    | Account(call: Call)

  datatype Setup = Setup(manager: Manager, hash: Hash) {
    /** Hashes are never empty and name their token. */
    ghost predicate Valid() {
      && manager.refreshTtl > 0
      && (forall a: SignedToken :: hash(a) != "")
      && (forall a: SignedToken, b: SignedToken :: hash(a) == hash(b) ==> a == b)
    }

    ghost predicate Possible(s: Server, e: Event) {
      match e
      case SignLogin(u, _, version, jti, issued) =>
        && u in s.db.users && 0 < version <= s.db.users[u].authVersion
        && jti != "" && jti !in s.iss.claims && s.clock <= issued
      case StoreLogin(token) =>
        token in s.signed && token.claims.jti in s.iss.claims && s.iss.claims[token.claims.jti].parent.None?
      case SignNext(presented, parsed, jti, issued) =>
        && presented in s.signed && manager.ParseRefreshToken(presented, parsed).Some?
        && jti != "" && jti !in s.iss.claims && s.clock <= issued
      case Refresh(presented, next, _) =>
        && presented in s.signed && next in s.signed && next.claims.jti in s.iss.claims
        && s.iss.claims[next.claims.jti].parent == Some(presented.claims.jti)
      case LogOut(presented, parsed, _) => presented in s.signed && manager.ParseRefreshToken(presented, parsed).Some?
      case Account(c) => (c.RegisterUser? && c.userId > 0) || c.DisableUser? || c.ChangePassword?
    }

    /** The token an event signs: for the version the login read, now or earlier, or the claims just parsed. */
    ghost function Signs(s: Server, e: Event): Option<SignedToken>
      requires Possible(s, e)
    {
      match e
      case SignLogin(u, username, version, jti, issued) =>
        manager.GenerateToken(u, username, version, TokenType.Refresh, issued, jti)
      case SignNext(presented, _, jti, issued) =>
        var c := presented.claims;
        manager.GenerateToken(c.userId, c.username, c.authVersion, TokenType.Refresh, issued, jti)
      case _ => None
    }

    /** The call an event makes. */
    ghost function Makes(s: Server, e: Event): Call
      requires Possible(s, e) && !e.SignLogin? && !e.SignNext?
    {
      match e
      case StoreLogin(token) =>
        var c := token.claims;
        StoreToken(c.userId, c.jti, c.jti, hash(token), s.iss.ExpiresAt(c.jti))
      case Refresh(presented, next, clock) =>
        RotationOf(manager, hash, presented, next, s.iss.claims[next.claims.jti].issuedAt, clock)
      case LogOut(presented, _, now) =>
        RevokeToken(presented.claims.userId, presented.claims.jti, hash(presented), now)
      case Account(c) => c
    }

    ghost function Step(s: Server, e: Event): Server
      requires Possible(s, e)
    {
      if e.SignLogin? || e.SignNext? then
        var token := Signs(s, e);
        if token.None? then s
        else
          var parent := if e.SignNext? then Some(e.presented.claims.jti) else None;
          s.(iss := WithToken(s.iss, hash, token.value, e.issued, parent), signed := s.signed + {token.value},
             clock := e.issued)
      else
        var c := Makes(s, e);
        s.(db := Apply(s.db, c).0, calls := s.calls + [c])
    }

    ghost predicate Runs(start: int, events: seq<Event>)
      decreases |events|, 0
    {
      events != [] ==>
        var init := events[..|events| - 1];
        Runs(start, init) && Possible(Final(start, init), events[|events| - 1])
    }

    ghost function Final(start: int, events: seq<Event>): Server
      requires Runs(start, events)
      decreases |events|, 1
    {
      if events == [] then Server(EMPTY, Issuer(manager.refreshTtl, map[]), {}, [], start)
      else Step(Final(start, events[..|events| - 1]), events[|events| - 1])
    }
  }

  // ---------- more tokens do not unmake a run ----------

  ghost predicate Extends(iss: Issuer, iss': Issuer) {
    iss'.refreshTtl == iss.refreshTtl &&
    forall j | j in iss.claims :: j in iss'.claims && iss'.claims[j] == iss.claims[j]
  }

  lemma {:induction false} FeasibleExtends(iss: Issuer, iss': Issuer, calls: seq<Call>)
    requires Extends(iss, iss') && Feasible(iss, calls)
    ensures Feasible(iss', calls)
  {
    if calls != [] {
      FeasibleExtends(iss, iss', calls[..|calls| - 1]);
    }
  }

  // ---------- the invariant ----------

  /** A login's token is for a version its user has or had. */
  ghost predicate VersionsAreReal(iss: Issuer, db: Database) {
    forall j | j in iss.claims && iss.claims[j].parent.None? ::
      iss.claims[j].userId in db.users && iss.claims[j].authVersion <= db.users[iss.claims[j].userId].authVersion
  }

  /** The record of a JTI is that of a signed token. */
  ghost predicate Recorded(cfg: Setup, s: Server, j: string) {
    && j in s.iss.claims && s.iss.claims[j].issuedAt <= s.clock
    && exists t :: t in s.signed && t.claims.jti == j && s.iss.claims[j].tokenHash == cfg.hash(t)
  }

  /** The issuer's records are those of the signed tokens. */
  ghost predicate RecordsMatch(cfg: Setup, s: Server) {
    && (forall t | t in s.signed :: Signed(s.iss, cfg.manager, cfg.hash, t))
    && (forall j | j in s.iss.claims :: Recorded(cfg, s, j))
  }

  ghost predicate Sound(cfg: Setup, s: Server) {
    && s.iss.WellFormed() && s.iss.refreshTtl == cfg.manager.refreshTtl
    && Feasible(s.iss, s.calls) && After(s.calls) == s.db
    && VersionsAreReal(s.iss, s.db) && RecordsMatch(cfg, s)
  }

  /** A new JTI makes a new hash. */
  lemma HashIsNew(cfg: Setup, s: Server, token: SignedToken)
    requires cfg.Valid() && RecordsMatch(cfg, s) && token.claims.jti !in s.iss.claims
    ensures cfg.hash(token) != "" && forall j | j in s.iss.claims :: s.iss.claims[j].tokenHash != cfg.hash(token)
  {
    forall j | j in s.iss.claims
      ensures s.iss.claims[j].tokenHash != cfg.hash(token)
    {
      assert Recorded(cfg, s, j);
    }
  }

  lemma SigningExtends(cfg: Setup, s: Server, e: Event, token: SignedToken)
    requires cfg.Possible(s, e) && (e.SignLogin? || e.SignNext?) && cfg.Signs(s, e) == Some(token)
    ensures var s' := cfg.Step(s, e);
            && Extends(s.iss, s'.iss) && s.clock <= s'.clock && s'.signed == s.signed + {token}
            && s'.iss.claims.Keys == s.iss.claims.Keys + {token.claims.jti}
            && s'.iss.claims[token.claims.jti].issuedAt <= s'.clock
  {
  }

  lemma NewTokenIsReal(cfg: Setup, s: Server, e: Event, token: SignedToken)
    requires cfg.Possible(s, e) && (e.SignLogin? || e.SignNext?) && cfg.Signs(s, e) == Some(token)
    requires VersionsAreReal(s.iss, s.db)
    ensures VersionsAreReal(cfg.Step(s, e).iss, s.db)
  {
  }

  lemma NewTokenKeepsIssuer(cfg: Setup, s: Server, e: Event, token: SignedToken)
    requires cfg.Valid() && Sound(cfg, s) && cfg.Possible(s, e) && (e.SignLogin? || e.SignNext?)
    requires Invariant(s.iss, s.db) && cfg.Signs(s, e) == Some(token)
    requires forall j | j in s.iss.claims :: s.iss.claims[j].tokenHash != cfg.hash(token)
    ensures cfg.Step(s, e).iss.WellFormed() && Signed(cfg.Step(s, e).iss, cfg.manager, cfg.hash, token)
  {
    match e
    case SignLogin(u, username, version, jti, issued) =>
      SigningKeepsIssuer(s.iss, cfg.manager, cfg.hash, None, username, u, version, jti, 0, issued);
    case SignNext(presented, parsed, jti, issued) =>
      var c := presented.claims;
      assert Recorded(cfg, s, c.jti);
      SigningKeepsIssuer(s.iss, cfg.manager, cfg.hash, Some(presented), c.username, c.userId, c.authVersion, jti,
                         parsed, issued);
  }

  lemma NewTokenKeepsSigned(cfg: Setup, s: Server, s': Server, token: SignedToken)
    requires (forall t | t in s.signed :: Signed(s.iss, cfg.manager, cfg.hash, t)) && Extends(s.iss, s'.iss)
    requires s'.signed == s.signed + {token} && Signed(s'.iss, cfg.manager, cfg.hash, token)
    ensures forall t | t in s'.signed :: Signed(s'.iss, cfg.manager, cfg.hash, t)
  {
    forall t | t in s'.signed
      ensures Signed(s'.iss, cfg.manager, cfg.hash, t)
    {
      assert t == token || Signed(s.iss, cfg.manager, cfg.hash, t);
    }
  }

  lemma RecordStays(cfg: Setup, s: Server, s': Server, j: string)
    requires Recorded(cfg, s, j) && Extends(s.iss, s'.iss) && s.clock <= s'.clock && s.signed <= s'.signed
    ensures Recorded(cfg, s', j)
  {
    var t :| t in s.signed && t.claims.jti == j && s.iss.claims[j].tokenHash == cfg.hash(t);
    assert t in s'.signed;
  }

  lemma NewTokenKeepsRecords(cfg: Setup, s: Server, s': Server, token: SignedToken)
    requires RecordsMatch(cfg, s) && Extends(s.iss, s'.iss) && s.clock <= s'.clock
    requires s'.signed == s.signed + {token} && s'.iss.claims.Keys == s.iss.claims.Keys + {token.claims.jti}
    requires Signed(s'.iss, cfg.manager, cfg.hash, token) && s'.iss.claims[token.claims.jti].issuedAt <= s'.clock
    ensures RecordsMatch(cfg, s')
  {
    NewTokenKeepsSigned(cfg, s, s', token);
    forall j | j in s'.iss.claims
      ensures Recorded(cfg, s', j)
    {
      if j == token.claims.jti {
        assert token in s'.signed;
      } else {
        assert Recorded(cfg, s, j);
        RecordStays(cfg, s, s', j);
      }
    }
  }

  lemma SigningIsSound(cfg: Setup, s: Server, e: Event)
    requires cfg.Valid() && Sound(cfg, s) && cfg.Possible(s, e) && (e.SignLogin? || e.SignNext?)
    ensures Sound(cfg, cfg.Step(s, e))
  {
    ReachableInvariant(s.iss, s.calls);
    var token := cfg.Signs(s, e);
    if token.Some? {
      var s' := cfg.Step(s, e);
      HashIsNew(cfg, s, token.value);
      SigningExtends(cfg, s, e, token.value);
      NewTokenKeepsIssuer(cfg, s, e, token.value);
      FeasibleExtends(s.iss, s'.iss, s.calls);
      NewTokenIsReal(cfg, s, e, token.value);
      NewTokenKeepsRecords(cfg, s, s', token.value);
    }
  }

  /** The call of an event is one the issuer permits. */
  lemma CallIsPermitted(cfg: Setup, s: Server, e: Event)
    requires Sound(cfg, s) && cfg.Possible(s, e) && !e.SignLogin? && !e.SignNext?
    ensures s.iss.Permits(s.db, cfg.Makes(s, e))
  {
    match e
    case StoreLogin(token) => assert Signed(s.iss, cfg.manager, cfg.hash, token);
    case Refresh(presented, next, clock) =>
      assert Signed(s.iss, cfg.manager, cfg.hash, presented) && Signed(s.iss, cfg.manager, cfg.hash, next);
      HandlerCallsAreSanctioned(s.iss, cfg.manager, cfg.hash, presented, next, clock, 0);
    case LogOut(presented, _, _) => assert Signed(s.iss, cfg.manager, cfg.hash, presented);
    case Account(_) =>
  }

  lemma CallingIsSound(cfg: Setup, s: Server, e: Event)
    requires Sound(cfg, s) && cfg.Possible(s, e) && !e.SignLogin? && !e.SignNext?
    ensures Sound(cfg, cfg.Step(s, e))
  {
    var c := cfg.Makes(s, e);
    CallIsPermitted(cfg, s, e);
    assert (s.calls + [c])[..|s.calls + [c]| - 1] == s.calls;
    UsersOnlyGrow(s.db, c);
    var s' := cfg.Step(s, e);
    forall j | j in s'.iss.claims
      ensures Recorded(cfg, s', j)
    {
      assert Recorded(cfg, s, j);
      RecordStays(cfg, s, s', j);
    }
  }

  /** A login signs for a version its user has or had, and then makes the call of the login handler. */
  lemma LoginMakesTheHandlersCall(cfg: Setup, s: Server, u: int, username: string, version: int, jti: string,
                                  issued: int)
    requires cfg.Valid() && Sound(cfg, s) && u in s.db.users && 0 < version <= s.db.users[u].authVersion
    requires jti != "" && jti !in s.iss.claims && s.clock <= issued
    ensures var token := cfg.manager.GenerateToken(u, username, version, TokenType.Refresh, issued, jti).value;
            var e := SignLogin(u, username, version, jti, issued);
            && cfg.Possible(s, e) && cfg.Possible(cfg.Step(s, e), StoreLogin(token))
            && cfg.Makes(cfg.Step(s, e), StoreLogin(token)) ==
               StoreToken(u, jti, jti, cfg.hash(token), issued + cfg.manager.refreshTtl)
  {
  }

  /** A refresh signs for the claims it parsed, and then makes the call of the refresh handler. */
  lemma RefreshMakesTheHandlersCall(cfg: Setup, s: Server, presented: SignedToken, parsed: int, jti: string,
                                    issued: int, clock: Clock)
    requires cfg.Valid() && Sound(cfg, s) && presented in s.signed
    requires cfg.manager.ParseRefreshToken(presented, parsed).Some?
    requires jti != "" && jti !in s.iss.claims && s.clock <= issued
    ensures var c := presented.claims;
            var m := cfg.manager;
            var next := m.GenerateToken(c.userId, c.username, c.authVersion, TokenType.Refresh, issued, jti).value;
            var e := SignNext(presented, parsed, jti, issued);
            && cfg.Possible(s, e) && cfg.Possible(cfg.Step(s, e), Event.Refresh(presented, next, clock))
            && cfg.Makes(cfg.Step(s, e), Event.Refresh(presented, next, clock)) ==
               RotateToken(c.userId, c.authVersion, c.jti, cfg.hash(presented), jti, cfg.hash(next),
                           issued + m.refreshTtl, clock)
  {
  }

  /** A logout with a signed token that parses makes the call of the logout handler. */
  lemma LogOutMakesTheHandlersCall(cfg: Setup, s: Server, presented: SignedToken, parsed: int, now: int)
    requires presented in s.signed && cfg.manager.ParseRefreshToken(presented, parsed).Some?
    ensures cfg.Possible(s, LogOut(presented, parsed, now))
    ensures cfg.Makes(s, LogOut(presented, parsed, now)) ==
            RevokeToken(presented.claims.userId, presented.claims.jti, cfg.hash(presented), now)
  {
  }

  /** Every run of the handlers is a feasible run of calls of a well-formed issuer, and leaves its tables. */
  lemma {:induction false} HandlerRunsAreFeasible(cfg: Setup, start: int, events: seq<Event>)
    requires cfg.Valid() && cfg.Runs(start, events)
    ensures var s := cfg.Final(start, events);
            && s.iss.WellFormed() && Feasible(s.iss, s.calls) && After(s.calls) == s.db
            && Sound(cfg, s)
  {
    if events != [] {
      var init, e := events[..|events| - 1], events[|events| - 1];
      HandlerRunsAreFeasible(cfg, start, init);
      var s := cfg.Final(start, init);
      if e.SignLogin? || e.SignNext? {
        SigningIsSound(cfg, s, e);
      } else {
        CallingIsSound(cfg, s, e);
      }
    }
  }
}
