/**
 The rows behind a session (`users` and `refresh_tokens`), the service calls that change them, and
 what each call does when it runs alone. Times are integers of one unit; every reading of the clock
 is part of the call. A hash is an injective name of what it hashes.
 */
module SessionModel {
  import opened Text

  datatype Option<+T> = None | Some(value: T)

  datatype RevokedReason = Rotated | Logout | PasswordChange | Replay

  datatype UserStatus = Active | Disabled

  datatype PasswordHash = PasswordHash(salt: int, password: string)

  datatype User = User(passwordHash: PasswordHash, status: UserStatus, authVersion: int)

  datatype RefreshToken = RefreshToken(
    userId: int,
    familyId: string,
    tokenHash: string,
    expiresAt: int,
    revokedAt: Option<int>,
    revokedReason: Option<RevokedReason>,
    replacedByJti: Option<string>)
  {
    predicate Live() { revokedAt.None? }

    /** The row after `UPDATE ... SET revoked_at, revoked_reason`. */
    function Revoked(at: int, reason: RevokedReason): RefreshToken {
      this.(revokedAt := Some(at), revokedReason := Some(reason))
    }

    /** The columns no statement updates. */
    predicate SameIdentity(other: RefreshToken) {
      userId == other.userId && familyId == other.familyId &&
      tokenHash == other.tokenHash && expiresAt == other.expiresAt
    }
  }

  type Users = map<int, User>

  /** `refresh_tokens`, keyed by its unique JTI. */
  type Tokens = map<string, RefreshToken>

  datatype Database = Database(users: Users, tokens: Tokens)

  const EMPTY := Database(map[], map[])

  datatype Answer =
    | Ok
    | TokenInvalid
    | TokenRevoked
    | TokenExpired
    | TokenReplay
    | TokenNotSaved
    | SessionInvalid
    | UserIdInvalid
    | UserNotFound
    | UserExists
    | PasswordUnchanged
    | OldPasswordWrong
    | PasswordRejected

  /** The readings `s.now()` gives one rotation: on entry, at the expiry test, at the update. */
  datatype Clock = Clock(entry: int, check: int, write: int)

  datatype Call =
    | RegisterUser(userId: int, passwordHash: PasswordHash)
    | DisableUser(userId: int)
    | StoreToken(userId: int, jti: string, familyId: string, tokenHash: string, expiresAt: int)
    | RotateToken(userId: int, authVersion: int, oldJti: string, oldHash: string,
                  nextJti: string, nextHash: string, nextExpiresAt: int, clock: Clock)
    | RevokeToken(userId: int, jti: string, tokenHash: string, now: int)
    | ChangePassword(userId: int, oldPassword: string, newPassword: string, salt: int, now: int)

  // ---------- statements of the repository ----------

  /** The unique keys on `jti` and `token_hash` admit the row. */
  predicate Insertable(tokens: Tokens, jti: string, tokenHash: string) {
    jti !in tokens && forall j | j in tokens :: tokens[j].tokenHash != tokenHash
  }

  function NewRow(userId: int, familyId: string, tokenHash: string, expiresAt: int): RefreshToken {
    RefreshToken(userId, familyId, tokenHash, expiresAt, None, None, None)
  }

  function Lookup<K, V>(rows: map<K, V>, key: K): Option<V> {
    if key in rows then Some(rows[key]) else None
  }

  /** `WHERE jti = ? AND revoked_at IS NULL`, setting the successor too. */
  function RevokedByJti(tokens: Tokens, jti: string, at: int, reason: RevokedReason, successor: Option<string>)
    : Tokens
  {
    if jti in tokens && tokens[jti].Live()
    then tokens[jti := tokens[jti].Revoked(at, reason).(replacedByJti := successor)]
    else tokens
  }

  /** `WHERE user_id = ? AND family_id = ? AND revoked_at IS NULL`. */
  function RevokedFamily(tokens: Tokens, userId: int, familyId: string, at: int, reason: RevokedReason): Tokens {
    map j | j in tokens ::
      if tokens[j].userId == userId && tokens[j].familyId == familyId && tokens[j].Live()
      then tokens[j].Revoked(at, reason) else tokens[j]
  }

  /** `WHERE user_id = ? AND revoked_at IS NULL`. */
  function RevokedUser(tokens: Tokens, userId: int, at: int, reason: RevokedReason): Tokens {
    map j | j in tokens ::
      if tokens[j].userId == userId && tokens[j].Live() then tokens[j].Revoked(at, reason) else tokens[j]
  }

  // ---------- decisions of the services ----------

  predicate BadRotation(c: Call)
    requires c.RotateToken?
  {
    c.userId <= 0 || c.authVersion <= 0 || c.oldJti == "" || c.oldHash == "" ||
    c.nextJti == "" || c.nextHash == "" || c.nextExpiresAt <= c.clock.entry
  }

  /** The locked user row lets a token of this version rotate. */
  predicate UserAdmits(user: Option<User>, authVersion: int) {
    user.Some? && user.value.status == Active && user.value.authVersion == authVersion
  }

  /** `ValidateAccessToken`: the claims of a parsed access JWT, the user row, the revocation answer. */
  function ValidateAccess(userId: int, authVersion: int, jti: string, user: Option<User>, revoked: bool): Answer {
    if userId <= 0 || authVersion <= 0 || Trim(jti) == "" then SessionInvalid
    else if !UserAdmits(user, authVersion) || revoked then SessionInvalid
    else Ok
  }

  datatype Verdict = Refuse(answer: Answer) | KillFamily(familyId: string) | Issue(next: RefreshToken)

  /** What a rotation does with the locked token row. */
  function Judge(row: Option<RefreshToken>, c: Call): Verdict
    requires c.RotateToken?
  {
    if row.None? || row.value.userId != c.userId || row.value.tokenHash != c.oldHash then Refuse(TokenInvalid)
    else if row.value.revokedAt.Some? then
      if row.value.revokedReason == Some(Rotated) && row.value.familyId != ""
      then KillFamily(row.value.familyId)
      else Refuse(TokenRevoked)
    else if row.value.expiresAt <= c.clock.check then Refuse(TokenExpired)
    else
      Issue(NewRow(c.userId, if row.value.familyId == "" then c.oldJti else row.value.familyId,
                   c.nextHash, c.nextExpiresAt))
  }

  predicate BadStore(c: Call)
    requires c.StoreToken?
  {
    c.userId <= 0 || c.jti == "" || c.familyId == "" || c.tokenHash == ""
  }

  predicate BadRevocation(c: Call)
    requires c.RevokeToken?
  {
    c.userId <= 0 || c.jti == "" || c.tokenHash == ""
  }

  predicate OwnsToken(row: Option<RefreshToken>, userId: int, tokenHash: string) {
    row.Some? && row.value.userId == userId && row.value.tokenHash == tokenHash
  }

  const MIN_PASSWORD_CHARACTERS := 12
  const MAX_PASSWORD_BYTES := 72

  predicate ValidPassword(password: string) {
    MIN_PASSWORD_CHARACTERS <= |password| && Utf8Length(password) <= MAX_PASSWORD_BYTES
  }

  /** Why the locked user row stops a password change, if it does. */
  function PasswordRefusal(user: Option<User>, c: Call): Option<Answer>
    requires c.ChangePassword?
  {
    if user.None? then Some(UserNotFound)
    else if user.value.passwordHash.password != c.oldPassword then Some(OldPasswordWrong)
    else if !ValidPassword(c.newPassword) then Some(PasswordRejected)
    else None
  }

  function WithNewPassword(user: User, c: Call): User
    requires c.ChangePassword?
  {
    user.(passwordHash := PasswordHash(c.salt, c.newPassword), authVersion := user.authVersion + 1)
  }

  /** The tables and the answer one call leaves when nothing runs beside it. */
  function Apply(db: Database, c: Call): (Database, Answer) {
    match c
    case RegisterUser(u, hash) =>
      if u in db.users then (db, UserExists)
      else (db.(users := db.users[u := User(hash, Active, 1)]), Ok)
    case DisableUser(u) =>
      if u in db.users && db.users[u].status == Active
      then (db.(users := db.users[u := db.users[u].(status := Disabled)]), Ok)
      else (db, Ok)
    case StoreToken(u, jti, family, hash, expiresAt) =>
      if BadStore(c) then (db, TokenInvalid)
      else if !Insertable(db.tokens, jti, hash) then (db, TokenNotSaved)
      else (db.(tokens := db.tokens[jti := NewRow(u, family, hash, expiresAt)]), Ok)
    case RotateToken(u, version, oldJti, _, nextJti, nextHash, _, clock) =>
      if BadRotation(c) || !UserAdmits(Lookup(db.users, u), version) then (db, TokenInvalid)
      else
        (match Judge(Lookup(db.tokens, oldJti), c)
         case Refuse(answer) => (db, answer)
         case KillFamily(family) =>
           (db.(tokens := RevokedFamily(db.tokens, u, family, clock.write, Replay)), TokenReplay)
         case Issue(next) =>
           if !Insertable(db.tokens, nextJti, nextHash) then (db, TokenNotSaved)
           else
             (db.(tokens := RevokedByJti(db.tokens[nextJti := next], oldJti, clock.write, Rotated, Some(nextJti))), Ok))
    case RevokeToken(u, jti, hash, now) =>
      if BadRevocation(c) || !OwnsToken(Lookup(db.tokens, jti), u, hash) then (db, TokenInvalid)
      else (db.(tokens := RevokedByJti(db.tokens, jti, now, Logout, None)), Ok)
    case ChangePassword(u, before, after, _, now) =>
      if u <= 0 then (db, UserIdInvalid)
      else if before == after then (db, PasswordUnchanged)
      else
        var refusal := PasswordRefusal(Lookup(db.users, u), c);
        if refusal.Some? then (db, refusal.value)
        else (Database(db.users[u := WithNewPassword(db.users[u], c)],
                       RevokedUser(db.tokens, u, now, PasswordChange)), Ok)
  }
}
