/**
 The repositories and services as they are written: statements that change the tables one after
 another inside a transaction. Each service method is proved to be the one call of `Apply`.
 */
module SessionServices {
  import opened SessionModel
  import opened Text

  /** The two tables of one database. */
  class SqlDatabase {
    var users: Users
    var tokens: Tokens

    constructor ()
      ensures Contents() == EMPTY
    {
      users, tokens := map[], map[];
    }

    ghost function Contents(): Database
      reads this
    {
      Database(users, tokens)
    }

    method Begin() returns (savepoint: Database)
      ensures savepoint == Contents()
    {
      savepoint := Database(users, tokens);
    }

    method Rollback(savepoint: Database)
      modifies this
      ensures Contents() == savepoint
    {
      users, tokens := savepoint.users, savepoint.tokens;
    }
  }

  /** The record a handler builds for a token it has just signed. */
  class TokenRecord {
    var userId: int
    var jti: string
    var familyId: string
    var tokenHash: string
    var expiresAt: int

    /** `refreshTokenModel`: a new record opens a family of its own. */
    constructor (userId: int, jti: string, tokenHash: string, expiresAt: int)
      ensures this.userId == userId && this.jti == jti && this.familyId == jti
      ensures this.tokenHash == tokenHash && this.expiresAt == expiresAt
    {
      this.userId, this.jti, this.familyId := userId, jti, jti;
      this.tokenHash, this.expiresAt := tokenHash, expiresAt;
    }
  }

  class RefreshTokenRepository {
    constructor () {}

    method Create(db: SqlDatabase, token: TokenRecord) returns (saved: bool)
      modifies db`tokens
      ensures saved <==> Insertable(old(db.tokens), token.jti, token.tokenHash)
      ensures saved ==>
                token.jti in db.tokens && db.tokens[token.jti].Live() && db.tokens[token.jti].replacedByJti.None?
      ensures saved ==>
                db.tokens ==
                old(db.tokens)[token.jti := NewRow(token.userId, token.familyId, token.tokenHash, token.expiresAt)]
      ensures !saved ==> db.tokens == old(db.tokens)
    {
      saved := token.jti !in db.tokens && !exists j | j in db.tokens :: db.tokens[j].tokenHash == token.tokenHash;
      if saved {
        db.tokens := db.tokens[token.jti := NewRow(token.userId, token.familyId, token.tokenHash, token.expiresAt)];
      }
    }

    method FindByJtiForUpdate(db: SqlDatabase, jti: string) returns (row: Option<RefreshToken>)
      ensures row == Lookup(db.tokens, jti)
    {
      row := if jti in db.tokens then Some(db.tokens[jti]) else None;
    }

    method RevokeByJti(db: SqlDatabase, jti: string, at: int, reason: RevokedReason, successor: Option<string>)
      modifies db`tokens
      ensures db.tokens.Keys == old(db.tokens).Keys
      ensures forall j | j in db.tokens ::
                db.tokens[j] == if j == jti && old(db.tokens)[j].Live()
                                then old(db.tokens)[j].Revoked(at, reason).(replacedByJti := successor)
                                else old(db.tokens)[j]
      ensures db.tokens == RevokedByJti(old(db.tokens), jti, at, reason, successor)
    {
      if jti in db.tokens && db.tokens[jti].revokedAt.None? {
        db.tokens := db.tokens[jti := db.tokens[jti].(revokedAt := Some(at), revokedReason := Some(reason),
                                                      replacedByJti := successor)];
      }
    }

    method RevokeFamily(db: SqlDatabase, userId: int, familyId: string, at: int, reason: RevokedReason)
      modifies db`tokens
      ensures forall j | j in db.tokens && db.tokens[j].userId == userId && db.tokens[j].familyId == familyId ::
                !db.tokens[j].Live()
      ensures db.tokens == RevokedFamily(old(db.tokens), userId, familyId, at, reason)
    {
      db.tokens := map j | j in db.tokens ::
          var row := db.tokens[j];
          if row.userId == userId && row.familyId == familyId && row.revokedAt.None?
          then row.(revokedAt := Some(at), revokedReason := Some(reason)) else row;
    }

    method RevokeAllByUserId(db: SqlDatabase, userId: int, at: int, reason: RevokedReason)
      modifies db`tokens
      ensures forall j | j in db.tokens && db.tokens[j].userId == userId :: !db.tokens[j].Live()
      ensures db.tokens == RevokedUser(old(db.tokens), userId, at, reason)
    {
      db.tokens := map j | j in db.tokens ::
          var row := db.tokens[j];
          if row.userId == userId && row.revokedAt.None?
          then row.(revokedAt := Some(at), revokedReason := Some(reason)) else row;
    }
  }

  class UserDao {
    constructor () {}

    method GetUserByIdForUpdate(db: SqlDatabase, id: int) returns (user: Option<User>)
      ensures user == Lookup(db.users, id)
    {
      user := if id in db.users then Some(db.users[id]) else None;
    }

    /** Guarded by the old hash; adds one to the version; tells whether a row was affected. */
    method UpdateUserPasswordByUserId(db: SqlDatabase, userId: int, before: PasswordHash, after: PasswordHash)
      returns (found: bool)
      modifies db`users
      ensures found <==> userId in old(db.users) && old(db.users)[userId].passwordHash == before
      ensures !found ==> db.users == old(db.users)
      ensures found ==>
                var user := old(db.users)[userId];
                db.users == old(db.users)[userId := user.(passwordHash := after, authVersion := user.authVersion + 1)]
    {
      found := userId in db.users && db.users[userId].passwordHash == before;
      if found {
        var user := db.users[userId];
        db.users := db.users[userId := user.(passwordHash := after, authVersion := user.authVersion + 1)];
      }
    }
  }

  class AuthService {
    const db: SqlDatabase
    const refreshRepo: RefreshTokenRepository
    const userStore: UserDao

    constructor (db: SqlDatabase)
      ensures this.db == db
    {
      this.db := db;
      this.refreshRepo := new RefreshTokenRepository();
      this.userStore := new UserDao();
    }

    method StoreRefreshToken(token: TokenRecord) returns (answer: Answer)
      modifies db
      ensures (db.Contents(), answer) ==
              Apply(old(db.Contents()),
                    StoreToken(token.userId, token.jti, token.familyId, token.tokenHash, token.expiresAt))
    {
      if token.userId <= 0 || token.jti == "" || token.familyId == "" || token.tokenHash == "" {
        return TokenInvalid;
      }
      var saved := refreshRepo.Create(db, token);
      answer := if saved then Ok else TokenNotSaved;
    }

    method RotateRefreshToken(userId: int, authVersion: int, oldJti: string, oldHash: string, next: TokenRecord,
                              clock: Clock)
      returns (answer: Answer)
      modifies db, next
      ensures var c := RotateToken(userId, authVersion, oldJti, oldHash, next.jti, next.tokenHash, next.expiresAt,
                                   clock);
              (db.Contents(), answer) == Apply(old(db.Contents()), c)
      ensures next.jti == old(next.jti) && next.tokenHash == old(next.tokenHash) &&
                next.expiresAt == old(next.expiresAt)
      ensures answer.Ok? ==>
                next.userId == userId && next.jti in db.tokens && next.familyId == db.tokens[next.jti].familyId
    {
      if userId <= 0 || authVersion <= 0 || oldJti == "" || oldHash == "" ||
         next.jti == "" || next.tokenHash == "" || next.expiresAt <= clock.entry {
        return TokenInvalid;
      }
      var replayDetected := false;
      var savepoint := db.Begin();
      answer, replayDetected := RotateInTransaction(userId, authVersion, oldJti, oldHash, next, clock);
      if !answer.Ok? {
        db.Rollback(savepoint);
      } else if replayDetected {
        answer := TokenReplay;
      }
    }

    /** The body of the transaction: an answer other than `Ok` asks for a rollback. */
    method RotateInTransaction(userId: int, authVersion: int, oldJti: string, oldHash: string, next: TokenRecord,
                               clock: Clock)
      returns (answer: Answer, replayDetected: bool)
      requires !BadRotation(RotateToken(userId, authVersion, oldJti, oldHash, next.jti, next.tokenHash, next.expiresAt,
                                        clock))
      modifies db, next
      ensures next.jti == old(next.jti) && next.tokenHash == old(next.tokenHash) &&
                next.expiresAt == old(next.expiresAt)
      ensures var c := RotateToken(userId, authVersion, oldJti, oldHash, next.jti, next.tokenHash, next.expiresAt,
                                   clock);
              var whole := Apply(old(db.Contents()), c);
              if answer.Ok?
              then db.Contents() == whole.0 && whole.1 == (if replayDetected then TokenReplay else Ok)
              else whole == (old(db.Contents()), answer)
      ensures answer.Ok? && !replayDetected ==>
                next.userId == userId && next.jti in db.tokens && next.familyId == db.tokens[next.jti].familyId
    {
      replayDetected := false;
      var user := userStore.GetUserByIdForUpdate(db, userId);
      if user.None? || user.value.status != Active || user.value.authVersion != authVersion {
        return TokenInvalid, false;
      }
      var current := refreshRepo.FindByJtiForUpdate(db, oldJti);
      if current.None? || current.value.userId != userId || current.value.tokenHash != oldHash {
        return TokenInvalid, false;
      }
      if current.value.revokedAt.Some? {
        if current.value.revokedReason == Some(Rotated) && current.value.familyId != "" {
          refreshRepo.RevokeFamily(db, userId, current.value.familyId, clock.write, Replay);
          return Ok, true;
        }
        return TokenRevoked, false;
      }
      if current.value.expiresAt <= clock.check {
        return TokenExpired, false;
      }
      next.userId := userId;
      next.familyId := current.value.familyId;
      if next.familyId == "" {
        next.familyId := oldJti;
      }
      var saved := refreshRepo.Create(db, next);
      if !saved {
        return TokenNotSaved, false;
      }
      refreshRepo.RevokeByJti(db, oldJti, clock.write, Rotated, Some(next.jti));
      answer := Ok;
    }

    method RevokeRefreshToken(userId: int, jti: string, tokenHash: string, now: int) returns (answer: Answer)
      modifies db
      ensures (db.Contents(), answer) == Apply(old(db.Contents()), RevokeToken(userId, jti, tokenHash, now))
    {
      if userId <= 0 || jti == "" || tokenHash == "" {
        return TokenInvalid;
      }
      var current := refreshRepo.FindByJtiForUpdate(db, jti);
      if current.None? || current.value.userId != userId || current.value.tokenHash != tokenHash {
        return TokenInvalid;
      }
      if current.value.revokedAt.Some? {
        return Ok;
      }
      refreshRepo.RevokeByJti(db, jti, now, Logout, None);
      answer := Ok;
    }
  }

  class UserService {
    const db: SqlDatabase
    const refreshRepo: RefreshTokenRepository
    const store: UserDao

    constructor (db: SqlDatabase)
      ensures this.db == db
    {
      this.db := db;
      this.refreshRepo := new RefreshTokenRepository();
      this.store := new UserDao();
    }

    method UpdateUserPassword(userId: int, oldPassword: string, newPassword: string, salt: int, now: int)
      returns (answer: Answer)
      modifies db
      ensures (db.Contents(), answer) ==
              Apply(old(db.Contents()), ChangePassword(userId, oldPassword, newPassword, salt, now))
    {
      if userId <= 0 {
        return UserIdInvalid;
      }
      if oldPassword == newPassword {
        return PasswordUnchanged;
      }
      var user := store.GetUserByIdForUpdate(db, userId);
      if user.None? {
        return UserNotFound;
      }
      if user.value.passwordHash.password != oldPassword {
        return OldPasswordWrong;
      }
      var valid := ValidatePassword(newPassword);
      if !valid {
        return PasswordRejected;
      }
      var updated := store.UpdateUserPasswordByUserId(db, userId, user.value.passwordHash,
                                                      PasswordHash(salt, newPassword));
      assert updated;
      refreshRepo.RevokeAllByUserId(db, userId, now, PasswordChange);
      answer := Ok;
    }

    method ValidatePassword(password: string) returns (valid: bool)
      ensures valid <==> ValidPassword(password)
    {
      valid := |password| >= MIN_PASSWORD_CHARACTERS && Utf8Length(password) <= MAX_PASSWORD_BYTES;
    }
  }
}
