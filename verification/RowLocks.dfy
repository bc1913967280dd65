/**
 The calls as transactions that run statement by statement beside each other. A statement waits
 for the row locks it needs, locks are held to the end, and uncommitted rows are seen by their
 own transaction only. Every such run commits the tables, and gives the answers, of a serial run.
 */
module RowLocks {
  import opened SessionModel
  import opened FamilyProtocol

  datatype Row = UserRow(id: int) | TokenRow(jti: string)

  /** How far a transaction got, with the rows its locking reads returned. */
  datatype Stage =
    | Begun
    | UserLocked(user: User)
    | TokenLocked(row: RefreshToken)
    | NextInserted(row: RefreshToken)
    | UserUpdated(user: User)
    | Finished(answer: Answer)

  /** `users` and `tokens` are the rows written and not yet committed; `after` who had answered at the start. */
  datatype Tx = Tx(call: Call, stage: Stage, held: set<Row>, users: Users, tokens: Tokens, after: set<nat>)

  datatype Entry = Entry(tx: nat, call: Call, answer: Answer, after: set<nat>)

  /** What a client asked for, and who had been answered by then. */
  datatype Request = Request(call: Call, after: set<nat>)

  /** `log` lists the transactions in the order of their last statements; `replies` what clients were told. */
  datatype System = System(
    committed: Database, txs: map<nat, Tx>, log: seq<Entry>, replies: map<nat, Answer>, asked: map<nat, Request>)

  const IDLE := System(EMPTY, map[], [], map[], map[])

  // ---------- statements ----------

  /** No other transaction holds the row. */
  ghost predicate Free(s: System, t: nat, r: Row) {
    forall o | o in s.txs && o != t :: r !in s.txs[o].held
  }

  /** No other transaction has an uncommitted row with this hash. */
  ghost predicate HashFree(s: System, t: nat, hash: string) {
    forall o, k | o in s.txs && o != t && k in s.txs[o].tokens && k !in s.committed.tokens ::
      s.txs[o].tokens[k].tokenHash != hash
  }

  predicate InScan(row: RefreshToken, userId: int, family: Option<string>) {
    row.userId == userId && (family.Some? ==> row.familyId == family.value)
  }

  /** No other transaction holds a row that the scan of an UPDATE reads. */
  ghost predicate ScanFree(s: System, t: nat, userId: int, family: Option<string>) {
    forall o, k | o in s.txs && o != t && TokenRow(k) in s.txs[o].held ::
      && (k in s.committed.tokens ==> !InScan(s.committed.tokens[k], userId, family))
      && (k in s.txs[o].tokens ==> !InScan(s.txs[o].tokens[k], userId, family))
  }

  function Scanned(tokens: Tokens, userId: int, family: Option<string>): set<Row> {
    set k | k in tokens && InScan(tokens[k], userId, family) :: TokenRow(k)
  }

  /** The rows an `UPDATE ... WHERE user_id = ? [AND family_id = ?] AND revoked_at IS NULL` writes. */
  function ScanWrites(tokens: Tokens, userId: int, family: Option<string>, at: int, reason: RevokedReason): Tokens {
    map k | k in tokens && InScan(tokens[k], userId, family) && tokens[k].Live() :: tokens[k].Revoked(at, reason)
  }

  function Done(x: Tx, answer: Answer): Option<Tx> {
    Some(x.(stage := Finished(answer)))
  }

  /** The next statement of a rotation; `None` while a lock it needs is taken. */
  ghost function RotationStatement(s: System, t: nat): Option<Tx>
    requires t in s.txs && s.txs[t].call.RotateToken?
  {
    var x := s.txs[t];
    var c := x.call;
    match x.stage
    case Begun =>
      if BadRotation(c) then Done(x, TokenInvalid)
      else if !Free(s, t, UserRow(c.userId)) then None
      else
        var user := Lookup(s.committed.users, c.userId);
        if !UserAdmits(user, c.authVersion) then Done(x, TokenInvalid)
        else Some(x.(stage := UserLocked(user.value), held := x.held + {UserRow(c.userId)}))
    case UserLocked(_) =>
      if !Free(s, t, TokenRow(c.oldJti)) then None
      else
        var row := Lookup(s.committed.tokens, c.oldJti);
        (match Judge(row, c)
         case Refuse(answer) => Done(x, answer)
         case _ => Some(x.(stage := TokenLocked(row.value), held := x.held + {TokenRow(c.oldJti)})))
    case TokenLocked(row) =>
      (match Judge(Some(row), c)
       case Refuse(answer) => Done(x, answer)
       case KillFamily(family) =>
         if !ScanFree(s, t, c.userId, Some(family)) then None
         else
           Some(x.(stage := Finished(TokenReplay),
                   held := x.held + Scanned(s.committed.tokens, c.userId, Some(family)),
                   tokens := ScanWrites(s.committed.tokens, c.userId, Some(family), c.clock.write, Replay)))
       case Issue(next) =>
         if !Free(s, t, TokenRow(c.nextJti)) || !HashFree(s, t, c.nextHash) then None
         else if !Insertable(s.committed.tokens, c.nextJti, c.nextHash) then Done(x, TokenNotSaved)
         else
           Some(x.(stage := NextInserted(row), held := x.held + {TokenRow(c.nextJti)},
                   tokens := map[c.nextJti := next])))
    case NextInserted(row) =>
      Some(x.(stage := Finished(Ok),
              tokens := x.tokens[c.oldJti := row.Revoked(c.clock.write, Rotated).(replacedByJti := Some(c.nextJti))]))
    case _ => None
  }

  ghost function LogoutStatement(s: System, t: nat): Option<Tx>
    requires t in s.txs && s.txs[t].call.RevokeToken?
  {
    var x := s.txs[t];
    var c := x.call;
    match x.stage
    case Begun =>
      if BadRevocation(c) then Done(x, TokenInvalid)
      else if !Free(s, t, TokenRow(c.jti)) then None
      else
        var row := Lookup(s.committed.tokens, c.jti);
        if !OwnsToken(row, c.userId, c.tokenHash) then Done(x, TokenInvalid)
        else if !row.value.Live() then Done(x, Ok)
        else Some(x.(stage := TokenLocked(row.value), held := x.held + {TokenRow(c.jti)}))
    case TokenLocked(row) =>
      Some(x.(stage := Finished(Ok),
              tokens := map[c.jti := row.Revoked(c.now, Logout).(replacedByJti := None)]))
    case _ => None
  }

  ghost function PasswordStatement(s: System, t: nat): Option<Tx>
    requires t in s.txs && s.txs[t].call.ChangePassword?
  {
    var x := s.txs[t];
    var c := x.call;
    match x.stage
    case Begun =>
      if c.userId <= 0 then Done(x, UserIdInvalid)
      else if c.oldPassword == c.newPassword then Done(x, PasswordUnchanged)
      else if !Free(s, t, UserRow(c.userId)) then None
      else
        var user := Lookup(s.committed.users, c.userId);
        var refusal := PasswordRefusal(user, c);
        if refusal.Some? then Done(x, refusal.value)
        else Some(x.(stage := UserLocked(user.value), held := x.held + {UserRow(c.userId)}))
    case UserLocked(user) =>
      Some(x.(stage := UserUpdated(user), users := map[c.userId := WithNewPassword(user, c)]))
    case UserUpdated(_) =>
      if !ScanFree(s, t, c.userId, None) then None
      else
        Some(x.(stage := Finished(Ok), held := x.held + Scanned(s.committed.tokens, c.userId, None),
                tokens := ScanWrites(s.committed.tokens, c.userId, None, c.now, PasswordChange)))
    case _ => None
  }

  /** Calls of one statement: a login's insert, a registration, a status update. */
  ghost function SingleStatement(s: System, t: nat): Option<Tx>
    requires t in s.txs
    requires s.txs[t].call.StoreToken? || s.txs[t].call.RegisterUser? || s.txs[t].call.DisableUser?
  {
    var x := s.txs[t];
    if x.stage != Begun then None
    else
      match x.call
      case StoreToken(u, jti, family, hash, expiresAt) =>
        if BadStore(x.call) then Done(x, TokenInvalid)
        else if !Free(s, t, TokenRow(jti)) || !HashFree(s, t, hash) then None
        else if !Insertable(s.committed.tokens, jti, hash) then Done(x, TokenNotSaved)
        else
          Some(x.(stage := Finished(Ok), held := x.held + {TokenRow(jti)},
                  tokens := map[jti := NewRow(u, family, hash, expiresAt)]))
      case RegisterUser(u, hash) =>
        if !Free(s, t, UserRow(u)) then None
        else if u in s.committed.users then Done(x, UserExists)
        else
          Some(x.(stage := Finished(Ok), held := x.held + {UserRow(u)}, users := map[u := User(hash, Active, 1)]))
      case DisableUser(u) =>
        if !Free(s, t, UserRow(u)) then None
        else if u !in s.committed.users || s.committed.users[u].status != Active then Done(x, Ok)
        else
          Some(x.(stage := Finished(Ok), held := x.held + {UserRow(u)},
                  users := map[u := s.committed.users[u].(status := Disabled)]))
      case _ => None
  }

  ghost function Statement(s: System, t: nat): Option<Tx>
    requires t in s.txs
  {
    match s.txs[t].call
    case RotateToken(_, _, _, _, _, _, _, _) => RotationStatement(s, t)
    case RevokeToken(_, _, _, _) => LogoutStatement(s, t)
    case ChangePassword(_, _, _, _, _) => PasswordStatement(s, t)
    case _ => SingleStatement(s, t)
  }

  // ---------- runs ----------

  datatype Action =
    | Begin(tx: nat, call: Call)
    | Execute(tx: nat)
    | Commit(tx: nat)
    | Rollback(tx: nat)

  /** The entries of transactions outside `drop`, in order. */
  function Keep(log: seq<Entry>, drop: set<nat>): seq<Entry> {
    if log == [] then []
    else
      var last := log[|log| - 1];
      if last.tx in drop then Keep(log[..|log| - 1], drop) else Keep(log[..|log| - 1], drop) + [last]
  }

  ghost predicate Enabled(iss: Issuer, s: System, a: Action) {
    match a
    case Begin(t, c) => t !in s.asked && iss.Permits(s.committed, c)
    case Execute(t) => t in s.txs && Statement(s, t).Some?
    case Commit(t) => t in s.txs && s.txs[t].stage.Finished?
    case Rollback(t) => t in s.txs
  }

  ghost function Do(iss: Issuer, s: System, a: Action): System
    requires Enabled(iss, s, a)
  {
    match a
    case Begin(t, c) =>
      s.(txs := s.txs[t := Tx(c, Begun, {}, map[], map[], s.replies.Keys)],
         asked := s.asked[t := Request(c, s.replies.Keys)])
    case Execute(t) =>
      var x := Statement(s, t).value;
      s.(txs := s.txs[t := x],
         log := if x.stage.Finished? then s.log + [Entry(t, x.call, x.stage.answer, x.after)] else s.log)
    case Commit(t) =>
      var x := s.txs[t];
      System(Database(s.committed.users + x.users, s.committed.tokens + x.tokens), s.txs - {t}, s.log,
             s.replies[t := x.stage.answer], s.asked)
    case Rollback(t) => s.(txs := s.txs - {t}, log := Keep(s.log, {t}))
  }

  ghost predicate Runnable(iss: Issuer, actions: seq<Action>)
    decreases |actions|, 0
  {
    actions != [] ==>
      var init := actions[..|actions| - 1];
      Runnable(iss, init) && Enabled(iss, Reached(iss, init), actions[|actions| - 1])
  }

  ghost function Reached(iss: Issuer, actions: seq<Action>): System
    requires Runnable(iss, actions)
    decreases |actions|, 1
  {
    if actions == [] then IDLE
    else Do(iss, Reached(iss, actions[..|actions| - 1]), actions[|actions| - 1])
  }
}
