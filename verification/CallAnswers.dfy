/**
 What each session call answers and writes, column by column: when exactly it succeeds, why it is
 refused, and which rows differ afterwards.
 */
module CallAnswers {
  import opened SessionModel
  import opened FamilyProtocol
  import opened Text

  // ---------- rotation ----------

  /** An active user at the version of the call, which presents a successor that has not expired. */
  predicate CurrentUser(db: Database, c: Call)
    requires c.RotateToken?
  {
    && c.userId in db.users && db.users[c.userId].status == Active
    && db.users[c.userId].authVersion == c.authVersion && c.clock.entry < c.nextExpiresAt
  }

  /** Neither unique key is taken. */
  predicate Unused(tokens: Tokens, jti: string, tokenHash: string) {
    jti !in tokens && forall j | j in tokens :: tokens[j].tokenHash != tokenHash
  }

  /** Every answer of a rotation that a handler asks for, by the columns that decide it. */
  lemma RotationAnswers(iss: Issuer, calls: seq<Call>, c: Call)
    requires iss.WellFormed() && Feasible(iss, calls) && c.RotateToken? && iss.Sanctions(c)
    ensures var db := After(calls);
            var answer := Apply(db, c).1;
            if !CurrentUser(db, c) || c.oldJti !in db.tokens then answer == TokenInvalid
            else
              var row := db.tokens[c.oldJti];
              if row.revokedAt.Some? then
                answer == if row.revokedReason == Some(Rotated) then TokenReplay else TokenRevoked
              else if row.expiresAt <= c.clock.check then answer == TokenExpired
              else answer == if Unused(db.tokens, c.nextJti, c.nextHash) then Ok else TokenNotSaved
  {
    ReachableInvariant(iss, calls);
    var db := After(calls);
    if c.oldJti in db.tokens {
      assert GoodRow(iss, db, c.oldJti);
    }
  }

  /** A handler's rotation succeeds exactly with a live, unexpired token of an active user at its version. */
  lemma RotationSucceedsExactly(iss: Issuer, calls: seq<Call>, c: Call)
    requires iss.WellFormed() && Feasible(iss, calls) && c.RotateToken? && iss.Sanctions(c)
    requires c.nextJti !in After(calls).tokens
    requires forall j | j in After(calls).tokens :: After(calls).tokens[j].tokenHash != c.nextHash
    ensures var db := After(calls);
            Apply(db, c).1.Ok? <==>
            && c.userId in db.users && db.users[c.userId].status == Active
            && db.users[c.userId].authVersion == c.authVersion
            && c.oldJti in db.tokens && db.tokens[c.oldJti].revokedAt.None?
            && c.clock.check < db.tokens[c.oldJti].expiresAt && c.clock.entry < c.nextExpiresAt
  {
    RotationAnswers(iss, calls, c);
  }

  /** It is taken for a replay exactly with a token that was rotated before, expired or not. */
  lemma ReplayIsDetectedExactly(iss: Issuer, calls: seq<Call>, c: Call)
    requires iss.WellFormed() && Feasible(iss, calls) && c.RotateToken? && iss.Sanctions(c)
    ensures var db := After(calls);
            Apply(db, c).1 == TokenReplay <==>
            && c.userId in db.users && db.users[c.userId].status == Active
            && db.users[c.userId].authVersion == c.authVersion && c.clock.entry < c.nextExpiresAt
            && c.oldJti in db.tokens && db.tokens[c.oldJti].revokedAt.Some?
            && db.tokens[c.oldJti].revokedReason == Some(Rotated)
  {
    RotationAnswers(iss, calls, c);
  }

  /** The columns of a row after it was revoked. */
  predicate WasRevoked(row: RefreshToken, row': RefreshToken, at: int, reason: RevokedReason,
                       successor: Option<string>)
  {
    && row'.userId == row.userId && row'.familyId == row.familyId
    && row'.tokenHash == row.tokenHash && row'.expiresAt == row.expiresAt
    && row'.revokedAt == Some(at) && row'.revokedReason == Some(reason) && row'.replacedByJti == successor
  }

  /** A refused rotation writes nothing, and none writes users. */
  lemma RefusedRotationWritesNothing(db: Database, c: Call)
    requires c.RotateToken?
    ensures Apply(db, c).0.users == db.users
    ensures !Apply(db, c).1.Ok? && Apply(db, c).1 != TokenReplay ==> Apply(db, c).0 == db
  {
  }

  /** A successful rotation adds the successor to the family, retires the old row, and leaves the others. */
  lemma RotationWrites(db: Database, c: Call)
    requires c.RotateToken? && Apply(db, c).1.Ok?
    requires c.oldJti in db.tokens ==> db.tokens[c.oldJti].familyId != ""
    ensures var tokens' := Apply(db, c).0.tokens;
            && c.oldJti in db.tokens && tokens'.Keys == db.tokens.Keys + {c.nextJti}
            && WasRevoked(db.tokens[c.oldJti], tokens'[c.oldJti], c.clock.write, Rotated, Some(c.nextJti))
            && tokens'[c.nextJti] == RefreshToken(c.userId, db.tokens[c.oldJti].familyId, c.nextHash, c.nextExpiresAt,
                                                  None, None, None)
            && (forall j | j in db.tokens && j != c.oldJti :: tokens'[j] == db.tokens[j])
  {
  }

  lemma ReplayRevokesRows(db: Database, c: Call)
    requires c.RotateToken? && Apply(db, c).1 == TokenReplay
    ensures var tokens' := Apply(db, c).0.tokens;
            && c.oldJti in db.tokens && tokens'.Keys == db.tokens.Keys
            && (forall j | j in db.tokens ::
                  if db.tokens[j].userId == c.userId && db.tokens[j].familyId == db.tokens[c.oldJti].familyId &&
                     db.tokens[j].revokedAt.None?
                  then WasRevoked(db.tokens[j], tokens'[j], c.clock.write, Replay, db.tokens[j].replacedByJti)
                  else tokens'[j] == db.tokens[j])
  {
  }

  /** All rows of a family belong to the user whose token is presented. */
  lemma OneOwner(iss: Issuer, db: Database, c: Call)
    requires Invariant(iss, db) && c.RotateToken? && iss.Sanctions(c) && c.oldJti in db.tokens
    ensures forall j | j in db.tokens && db.tokens[j].familyId == db.tokens[c.oldJti].familyId ::
              db.tokens[j].userId == c.userId
  {
    assert GoodRow(iss, db, c.oldJti);
    forall j | j in db.tokens && db.tokens[j].familyId == db.tokens[c.oldJti].familyId
      ensures db.tokens[j].userId == c.userId
    {
      assert GoodRow(iss, db, j);
    }
  }

  /** A replay revokes exactly the live rows of the family. */
  lemma ReplayWrites(iss: Issuer, calls: seq<Call>, c: Call)
    requires iss.WellFormed() && Feasible(iss, calls) && c.RotateToken? && iss.Sanctions(c)
    requires Apply(After(calls), c).1 == TokenReplay
    ensures var db := After(calls);
            var tokens' := Apply(db, c).0.tokens;
            && c.oldJti in db.tokens && tokens'.Keys == db.tokens.Keys
            && (forall j | j in db.tokens ::
                  if db.tokens[j].familyId == db.tokens[c.oldJti].familyId && db.tokens[j].revokedAt.None?
                  then WasRevoked(db.tokens[j], tokens'[j], c.clock.write, Replay, db.tokens[j].replacedByJti)
                  else tokens'[j] == db.tokens[j])
  {
    ReachableInvariant(iss, calls);
    ReplayRevokesRows(After(calls), c);
    OneOwner(iss, After(calls), c);
  }

  // ---------- login and logout ----------

  /** A login's token is stored exactly if its keys are free. */
  lemma StoreSucceedsExactly(iss: Issuer, calls: seq<Call>, c: Call)
    requires iss.WellFormed() && Feasible(iss, calls) && c.StoreToken? && iss.Sanctions(c)
    ensures var db := After(calls);
            var (db', answer) := Apply(db, c);
            && (answer == if Unused(db.tokens, c.jti, c.tokenHash) then Ok else TokenNotSaved)
            && db'.users == db.users
            && (answer.Ok? ==>
                  && db'.tokens.Keys == db.tokens.Keys + {c.jti}
                  && db'.tokens[c.jti] == RefreshToken(c.userId, c.jti, c.tokenHash, c.expiresAt, None, None, None)
                  && (forall j | j in db.tokens :: j != c.jti && db'.tokens[j] == db.tokens[j]))
            && (!answer.Ok? ==> db' == db)
  {
  }

  /** A logout succeeds exactly with a stored token: live it is revoked, revoked it stays as it was. */
  lemma LogoutSucceedsExactly(iss: Issuer, calls: seq<Call>, c: Call)
    requires iss.WellFormed() && Feasible(iss, calls) && c.RevokeToken? && iss.Sanctions(c)
    ensures var db := After(calls);
            var (db', answer) := Apply(db, c);
            && answer == (if c.jti in db.tokens then Ok else TokenInvalid)
            && db'.users == db.users && db'.tokens.Keys == db.tokens.Keys
            && (forall j | j in db.tokens && j != c.jti :: db'.tokens[j] == db.tokens[j])
            && (c.jti in db.tokens && db.tokens[c.jti].revokedAt.Some? ==> db'.tokens[c.jti] == db.tokens[c.jti])
            && (c.jti in db.tokens && db.tokens[c.jti].revokedAt.None? ==>
                  WasRevoked(db.tokens[c.jti], db'.tokens[c.jti], c.now, Logout, None))
  {
    ReachableInvariant(iss, calls);
    if c.jti in After(calls).tokens {
      assert GoodRow(iss, After(calls), c.jti);
    }
  }

  /** On any tables, only the owner with the right token logs it out or rotates it, the latter active at its version. */
  lemma OnlyOwnersSucceed(db: Database, c: Call)
    requires (c.RevokeToken? || c.RotateToken?) && (Apply(db, c).1.Ok? || Apply(db, c).1 == TokenReplay)
    ensures var j := if c.RevokeToken? then c.jti else c.oldJti;
            var tokenHash := if c.RevokeToken? then c.tokenHash else c.oldHash;
            j in db.tokens && db.tokens[j].userId == c.userId && db.tokens[j].tokenHash == tokenHash
    ensures c.RotateToken? ==>
              && c.userId in db.users && db.users[c.userId].status == Active
              && db.users[c.userId].authVersion == c.authVersion
  {
  }

  // ---------- accounts ----------

  /** Every answer of a password change, by the columns and the lengths that decide it. */
  lemma PasswordAnswers(db: Database, u: int, before: string, after: string, salt: int, now: int)
    ensures var r := Apply(db, ChangePassword(u, before, after, salt, now));
            if u <= 0 then r == (db, UserIdInvalid)
            else if before == after then r == (db, PasswordUnchanged)
            else if u !in db.users then r == (db, UserNotFound)
            else if db.users[u].passwordHash.password != before then r == (db, OldPasswordWrong)
            else if |after| < 12 || Utf8Length(after) > 72 then r == (db, PasswordRejected)
            else r.1 == Ok
  {
  }

  /** With the right old password and a new one in bounds, and only then, the password changes. */
  lemma PasswordChangesExactly(db: Database, u: int, before: string, after: string, salt: int, now: int)
    requires u > 0 && before != after && u in db.users
    ensures Apply(db, ChangePassword(u, before, after, salt, now)).1.Ok? <==>
            db.users[u].passwordHash.password == before && 12 <= |after| && Utf8Length(after) <= 72
  {
    PasswordAnswers(db, u, before, after, salt, now);
  }

  /** It stores the new password, adds one to the version, and revokes exactly the user's live rows. */
  lemma PasswordWrites(db: Database, c: Call)
    requires c.ChangePassword? && Apply(db, c).1.Ok?
    ensures var db' := Apply(db, c).0;
            && c.userId in db.users && db'.users.Keys == db.users.Keys && db'.tokens.Keys == db.tokens.Keys
            && db'.users[c.userId].passwordHash.password == c.newPassword
            && db'.users[c.userId].passwordHash.salt == c.salt
            && db'.users[c.userId].authVersion == db.users[c.userId].authVersion + 1
            && db'.users[c.userId].status == db.users[c.userId].status
            && (forall u | u in db.users && u != c.userId :: db'.users[u] == db.users[u])
            && (forall j | j in db.tokens ::
                  if db.tokens[j].userId == c.userId && db.tokens[j].revokedAt.None?
                  then WasRevoked(db.tokens[j], db'.tokens[j], c.now, PasswordChange, db.tokens[j].replacedByJti)
                  else db'.tokens[j] == db.tokens[j])
  {
  }

  /** Registration adds an active user of version 1; disabling changes the status and nothing else. */
  lemma AccountWrites(db: Database, c: Call)
    requires c.RegisterUser? || c.DisableUser?
    ensures var (db', answer) := Apply(db, c);
            && db'.tokens == db.tokens
            && (forall u | u in db.users && (u != c.userId || c.RegisterUser?) ::
                  u in db'.users && db'.users[u] == db.users[u])
            && (c.RegisterUser? ==>
                  && (answer.Ok? <==> c.userId !in db.users) && db'.users.Keys == db.users.Keys + {c.userId}
                  && (answer.Ok? ==> db'.users[c.userId] == User(c.passwordHash, Active, 1)))
            && (c.DisableUser? ==>
                  && answer.Ok? && db'.users.Keys == db.users.Keys
                  && (c.userId in db.users ==>
                        db'.users[c.userId].status == Disabled
                        && db'.users[c.userId].passwordHash == db.users[c.userId].passwordHash
                        && db'.users[c.userId].authVersion == db.users[c.userId].authVersion))
  {
  }
}
