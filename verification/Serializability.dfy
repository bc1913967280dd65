/**
 Every statement-level run has a serial order, the order of last statements, that commits the same
 tables, gives the same answers and respects real time.
 */
module Serializability {
  import opened SessionModel
  import opened FamilyProtocol
  import opened RowLocks

  // ---------- the serial order ----------

  function Calls(log: seq<Entry>): seq<Call> {
    if log == [] then [] else Calls(log[..|log| - 1]) + [log[|log| - 1].call]
  }

  /** Each answer is the one the call gets in the serial run of the log. */
  ghost predicate Faithful(log: seq<Entry>) {
    log != [] ==>
      var init := log[..|log| - 1];
      var last := log[|log| - 1];
      Faithful(init) && Apply(After(Calls(init)), last.call).1 == last.answer
  }

  function Members(log: seq<Entry>): set<nat> {
    if log == [] then {} else Members(log[..|log| - 1]) + {log[|log| - 1].tx}
  }

  /** A transaction that had answered before another began comes before it. */
  ghost predicate RealTime(log: seq<Entry>) {
    log != [] ==>
      var init := log[..|log| - 1];
      RealTime(init) && log[|log| - 1].after <= Members(init)
  }

  lemma {:induction false} MembersAt(log: seq<Entry>)
    ensures forall t :: t in Members(log) <==> exists i :: 0 <= i < |log| && log[i].tx == t
  {
    if log != [] {
      MembersAt(log[..|log| - 1]);
    }
  }

  lemma Snoc<T>(log: seq<T>, e: T)
    ensures (log + [e])[..|log + [e]| - 1] == log && (log + [e])[|log + [e]| - 1] == e
  {
  }

  lemma {:induction false} KeepMembers(log: seq<Entry>, drop: set<nat>)
    ensures Members(Keep(log, drop)) == Members(log) - drop
  {
    if log != [] {
      KeepMembers(log[..|log| - 1], drop);
      Snoc(Keep(log[..|log| - 1], drop), log[|log| - 1]);
    }
  }

  lemma {:induction false} KeepTwice(log: seq<Entry>, drop: set<nat>, more: set<nat>)
    ensures Keep(Keep(log, drop), more) == Keep(log, drop + more)
  {
    if log != [] {
      KeepTwice(log[..|log| - 1], drop, more);
      Snoc(Keep(log[..|log| - 1], drop), log[|log| - 1]);
    }
  }

  lemma {:induction false} KeepSame(log: seq<Entry>, drop: set<nat>, drop': set<nat>)
    requires forall t | t in Members(log) :: t in drop <==> t in drop'
    ensures Keep(log, drop) == Keep(log, drop')
  {
    if log != [] {
      KeepSame(log[..|log| - 1], drop, drop');
    }
  }

  lemma {:induction false} KeepRealTime(log: seq<Entry>, drop: set<nat>, answered: set<nat>)
    requires RealTime(log) && answered !! drop
    requires forall i | 0 <= i < |log| :: log[i].after <= answered
    ensures RealTime(Keep(log, drop))
  {
    if log != [] {
      var init := log[..|log| - 1];
      KeepRealTime(init, drop, answered);
      KeepMembers(init, drop);
      Snoc(Keep(init, drop), log[|log| - 1]);
    }
  }

  // ---------- what each transaction knows ----------

  ghost predicate RotationLocked(db: Database, x: Tx, row: RefreshToken)
    requires x.call.RotateToken?
  {
    var c := x.call;
    && x.users == map[]
    && !BadRotation(c) && UserAdmits(Lookup(db.users, c.userId), c.authVersion)
    && c.oldJti in db.tokens && db.tokens[c.oldJti] == row && !Judge(Some(row), c).Refuse?
  }

  ghost predicate GoodChange(c: Call, user: User)
    requires c.ChangePassword?
  {
    c.userId > 0 && c.oldPassword != c.newPassword && PasswordRefusal(Some(user), c).None?
  }

  /** The rows a transaction has read are locked and still as it read them. */
  ghost predicate Knows(db: Database, x: Tx) {
    match x.stage
    case Begun => x.users == map[] && x.tokens == map[] && x.held == {}
    case UserLocked(user) =>
      && x.users == map[] && x.tokens == map[]
      && (x.call.RotateToken? || x.call.ChangePassword?)
      && x.held == {UserRow(x.call.userId)} && Lookup(db.users, x.call.userId) == Some(user)
      && (x.call.RotateToken? ==> !BadRotation(x.call) && UserAdmits(Some(user), x.call.authVersion))
      && (x.call.ChangePassword? ==> GoodChange(x.call, user))
    case TokenLocked(row) =>
      && x.users == map[] && x.tokens == map[]
      && (x.call.RotateToken? || x.call.RevokeToken?)
      && (x.call.RotateToken? ==>
            RotationLocked(db, x, row) && x.held == {UserRow(x.call.userId), TokenRow(x.call.oldJti)})
      && (x.call.RevokeToken? ==>
            x.held == {TokenRow(x.call.jti)} && x.call.jti in db.tokens && db.tokens[x.call.jti] == row &&
            !BadRevocation(x.call) && OwnsToken(Some(row), x.call.userId, x.call.tokenHash) && row.Live())
    case NextInserted(row) =>
      && x.call.RotateToken? && RotationLocked(db, x, row)
      && x.held == {UserRow(x.call.userId), TokenRow(x.call.oldJti), TokenRow(x.call.nextJti)}
      && Judge(Some(row), x.call).Issue? && x.tokens == map[x.call.nextJti := Judge(Some(row), x.call).next]
      && Insertable(db.tokens, x.call.nextJti, x.call.nextHash)
    case UserUpdated(user) =>
      && x.call.ChangePassword? && GoodChange(x.call, user)
      && x.held == {UserRow(x.call.userId)} && Lookup(db.users, x.call.userId) == Some(user)
      && x.tokens == map[] && x.users == map[x.call.userId := WithNewPassword(user, x.call)]
    case Finished(_) => true
  }

  /** Written rows are locked, keep their identity, and never lower a version. */
  ghost predicate CleanWrites(db: Database, x: Tx) {
    && (forall u | u in x.users :: UserRow(u) in x.held)
    && (forall k | k in x.tokens :: TokenRow(k) in x.held)
    && (forall u | u in x.users && u in db.users :: db.users[u].authVersion <= x.users[u].authVersion)
    && (forall k | k in x.tokens && k in db.tokens :: db.tokens[k].SameIdentity(x.tokens[k]))
  }

  /** A login's token is for a version its user has or had. */
  ghost predicate Allowed(iss: Issuer, db: Database, x: Tx) {
    iss.Permits(db, x.call)
  }

  // ---------- the tables the log explains ----------

  ghost predicate Shown(s: System, drop: set<nat>, t: nat) {
    t in s.txs && t !in drop && s.txs[t].stage.Finished?
  }

  ghost predicate UserUntouched(s: System, drop: set<nat>, u: int) {
    forall t | Shown(s, drop, t) :: u !in s.txs[t].users
  }

  ghost predicate TokenUntouched(s: System, drop: set<nat>, k: string) {
    forall t | Shown(s, drop, t) :: k !in s.txs[t].tokens
  }

  /** `db` is the committed tables with the writes of the finished transactions outside `drop`. */
  ghost predicate IsView(s: System, drop: set<nat>, db: Database) {
    && (forall t | Shown(s, drop, t) ::
          && (forall u | u in s.txs[t].users :: u in db.users && db.users[u] == s.txs[t].users[u])
          && (forall k | k in s.txs[t].tokens :: k in db.tokens && db.tokens[k] == s.txs[t].tokens[k]))
    && (forall u {:trigger UserUntouched(s, drop, u)} | UserUntouched(s, drop, u) ::
          Lookup(db.users, u) == Lookup(s.committed.users, u))
    && (forall k {:trigger TokenUntouched(s, drop, k)} | TokenUntouched(s, drop, k) ::
          Lookup(db.tokens, k) == Lookup(s.committed.tokens, k))
  }

  /** The log without `drop` is a serial run that explains the view without `drop`. */
  ghost predicate Explains(iss: Issuer, s: System, drop: set<nat>) {
    var kept := Keep(s.log, drop);
    Feasible(iss, Calls(kept)) && Faithful(kept) && IsView(s, drop, After(Calls(kept)))
  }

  ghost function FinishedTxs(s: System): set<nat> {
    set t | t in s.txs && s.txs[t].stage.Finished?
  }

  ghost predicate Exclusive(s: System) {
    forall t, o | t in s.txs && o in s.txs && t != o :: s.txs[t].held !! s.txs[o].held
  }

  ghost predicate DistinctHashes(s: System) {
    forall t, o, k, m | t in s.txs && o in s.txs && t != o && k in s.txs[t].tokens && m in s.txs[o].tokens &&
                        k !in s.committed.tokens && m !in s.committed.tokens ::
      s.txs[t].tokens[k].tokenHash != s.txs[o].tokens[m].tokenHash
  }

  /** An entry tells what its client asked and was told, or what its transaction will answer. */
  ghost predicate EntryOk(s: System, e: Entry) {
    && e.after <= s.replies.Keys
    && e.tx in s.asked && s.asked[e.tx] == Request(e.call, e.after)
    && (e.tx in s.replies ==> s.replies[e.tx] == e.answer)
    && (e.tx in s.txs ==> s.txs[e.tx].stage == Finished(e.answer))
  }

  ghost predicate RequestOk(s: System, t: nat) {
    t in s.txs && t in s.asked && s.txs[t].after <= s.replies.Keys &&
    s.asked[t] == Request(s.txs[t].call, s.txs[t].after)
  }

  ghost predicate DistinctTxs(log: seq<Entry>) {
    forall i, k | 0 <= i < k < |log| :: log[i].tx != log[k].tx
  }

  /** The log holds the answered transactions and the finished ones, each with its answer. */
  ghost predicate LogMatches(s: System) {
    && s.replies.Keys !! s.txs.Keys
    && DistinctTxs(s.log)
    && Members(s.log) == s.replies.Keys + FinishedTxs(s)
    && (forall i | 0 <= i < |s.log| :: EntryOk(s, s.log[i]))
    && (forall t | t in s.txs :: RequestOk(s, t))
    && s.replies.Keys <= s.asked.Keys
    && RealTime(s.log)
  }

  ghost predicate TxOk(iss: Issuer, s: System, t: nat)
    requires t in s.txs
  {
    Knows(s.committed, s.txs[t]) && CleanWrites(s.committed, s.txs[t]) && Allowed(iss, s.committed, s.txs[t])
  }

  ghost predicate LocksOk(iss: Issuer, s: System) {
    && Exclusive(s)
    && DistinctHashes(s)
    && (forall t {:trigger TxOk(iss, s, t)} | t in s.txs :: TxOk(iss, s, t))
  }

  ghost predicate Explained(iss: Issuer, s: System) {
    forall drop {:trigger Explains(iss, s, drop)} | drop <= FinishedTxs(s) :: Explains(iss, s, drop)
  }

  ghost predicate SystemInvariant(iss: Issuer, s: System) {
    LocksOk(iss, s) && LogMatches(s) && Explained(iss, s)
  }

  // ---------- what a view shares with the committed tables ----------

  ghost predicate Settled(s: System) {
    && Exclusive(s)
    && (forall t {:trigger s.txs[t]} | t in s.txs :: CleanWrites(s.committed, s.txs[t]))
  }

  /** A row that the transaction holds, or that nobody else holds, is the committed one in every view. */
  lemma HeldUserAgrees(s: System, t: nat, drop: set<nat>, db: Database, u: int)
    requires Settled(s) && IsView(s, drop, db) && t in s.txs && !s.txs[t].stage.Finished?
    requires UserRow(u) in s.txs[t].held || Free(s, t, UserRow(u))
    ensures Lookup(db.users, u) == Lookup(s.committed.users, u)
  {
    assert UserUntouched(s, drop, u);
  }

  lemma HeldTokenAgrees(s: System, t: nat, drop: set<nat>, db: Database, k: string)
    requires Settled(s) && IsView(s, drop, db) && t in s.txs && !s.txs[t].stage.Finished?
    requires TokenRow(k) in s.txs[t].held || Free(s, t, TokenRow(k))
    ensures Lookup(db.tokens, k) == Lookup(s.committed.tokens, k)
  {
    assert TokenUntouched(s, drop, k);
  }

  /** A row of the view is the committed one or a finished transaction's. */
  lemma ViewRow(s: System, drop: set<nat>, db: Database, k: string)
    requires Settled(s) && IsView(s, drop, db)
    ensures k in s.committed.tokens ==> k in db.tokens && s.committed.tokens[k].SameIdentity(db.tokens[k])
    ensures TokenUntouched(s, drop, k) ||
            exists o ::
              Shown(s, drop, o) && k in s.txs[o].tokens && k in db.tokens && db.tokens[k] == s.txs[o].tokens[k]
  {
    if !TokenUntouched(s, drop, k) {
      var o :| Shown(s, drop, o) && k in s.txs[o].tokens;
      assert CleanWrites(s.committed, s.txs[o]);
    }
  }

  lemma InsertableAgrees(s: System, t: nat, drop: set<nat>, db: Database, j: string, hash: string)
    requires Settled(s) && IsView(s, drop, db) && t in s.txs && !s.txs[t].stage.Finished?
    requires TokenRow(j) in s.txs[t].held || Free(s, t, TokenRow(j))
    requires HashFree(s, t, hash)
    ensures Insertable(db.tokens, j, hash) <==> Insertable(s.committed.tokens, j, hash)
  {
    HeldTokenAgrees(s, t, drop, db, j);
    forall k | k in s.committed.tokens
      ensures k in db.tokens && db.tokens[k].tokenHash == s.committed.tokens[k].tokenHash
    {
      ViewRow(s, drop, db, k);
    }
    forall k | k in db.tokens && db.tokens[k].tokenHash == hash
      ensures k in s.committed.tokens && s.committed.tokens[k].tokenHash == hash
    {
      ViewRow(s, drop, db, k);
    }
  }

  /** A row that another transaction wrote is outside the scan, as committed and as written. */
  lemma ScanSkipsWritten(s: System, t: nat, o: nat, u: int, family: Option<string>, k: string)
    requires t in s.txs && o in s.txs && o != t && k in s.txs[o].tokens
    requires CleanWrites(s.committed, s.txs[o]) && ScanFree(s, t, u, family)
    ensures !InScan(s.txs[o].tokens[k], u, family)
    ensures k in s.committed.tokens ==> !InScan(s.committed.tokens[k], u, family)
  {
    assert TokenRow(k) in s.txs[o].held;
  }

  lemma ScanAgrees(s: System, t: nat, drop: set<nat>, db: Database, u: int, family: Option<string>, k: string)
    requires Settled(s) && IsView(s, drop, db) && t in s.txs && !s.txs[t].stage.Finished?
    requires ScanFree(s, t, u, family)
    ensures (k in db.tokens && InScan(db.tokens[k], u, family)) ||
            (k in s.committed.tokens && InScan(s.committed.tokens[k], u, family)) ==>
              Lookup(db.tokens, k) == Lookup(s.committed.tokens, k)
  {
    if !TokenUntouched(s, drop, k) {
      var o :| Shown(s, drop, o) && k in s.txs[o].tokens;
      ScanSkipsWritten(s, t, o, u, family, k);
    }
  }

  lemma SameRows<K, V>(a: map<K, V>, b: map<K, V>)
    requires forall k :: Lookup(a, k) == Lookup(b, k)
    ensures a == b
  {
    forall k
      ensures (k in a <==> k in b) && (k in a ==> a[k] == b[k])
    {
      assert Lookup(a, k) == Lookup(b, k);
    }
  }

  lemma UserScanApplies(s: System, t: nat, drop: set<nat>, db: Database, u: int, at: int, reason: RevokedReason)
    requires Settled(s) && IsView(s, drop, db) && t in s.txs && !s.txs[t].stage.Finished?
    requires ScanFree(s, t, u, None)
    ensures RevokedUser(db.tokens, u, at, reason) == db.tokens + ScanWrites(s.committed.tokens, u, None, at, reason)
  {
    var writes := ScanWrites(s.committed.tokens, u, None, at, reason);
    forall k
      ensures Lookup(RevokedUser(db.tokens, u, at, reason), k) == Lookup(db.tokens + writes, k)
    {
      ScanAgrees(s, t, drop, db, u, None, k);
    }
    SameRows(RevokedUser(db.tokens, u, at, reason), db.tokens + writes);
  }

  lemma FamilyScanApplies(s: System, t: nat, drop: set<nat>, db: Database, u: int, f: string, at: int,
                          reason: RevokedReason)
    requires Settled(s) && IsView(s, drop, db) && t in s.txs && !s.txs[t].stage.Finished?
    requires ScanFree(s, t, u, Some(f))
    ensures RevokedFamily(db.tokens, u, f, at, reason) ==
              db.tokens + ScanWrites(s.committed.tokens, u, Some(f), at, reason)
  {
    var writes := ScanWrites(s.committed.tokens, u, Some(f), at, reason);
    forall k
      ensures Lookup(RevokedFamily(db.tokens, u, f, at, reason), k) == Lookup(db.tokens + writes, k)
    {
      ScanAgrees(s, t, drop, db, u, Some(f), k);
    }
    SameRows(RevokedFamily(db.tokens, u, f, at, reason), db.tokens + writes);
  }

  // ---------- the last statement is the whole call ----------

  /** Run alone on any view, the call does what the transaction's statements did. */
  ghost predicate Applies(db: Database, x: Tx) {
    x.stage.Finished? &&
    Apply(db, x.call) == (Database(db.users + x.users, db.tokens + x.tokens), x.stage.answer)
  }

  ghost predicate Ready(s: System, t: nat) {
    && Settled(s) && DistinctHashes(s) && t in s.txs && Knows(s.committed, s.txs[t])
    && !s.txs[t].stage.Finished? && Statement(s, t).Some?
  }

  lemma NoWrites(db: Database)
    ensures Database(db.users + map[], db.tokens + map[]) == db
  {
    assert db.users + map[] == db.users && db.tokens + map[] == db.tokens;
  }

  lemma SingleUserApplies(s: System, t: nat, drop: set<nat>, db: Database, u: int)
    requires Ready(s, t) && IsView(s, drop, db)
    requires s.txs[t].call.RegisterUser? || s.txs[t].call.DisableUser?
    requires u == s.txs[t].call.userId
    ensures Applies(db, Statement(s, t).value)
  {
    NoWrites(db);
    var x' := Statement(s, t).value;
    HeldUserAgrees(s, t, drop, db, u);
    assert Lookup(db.users, u) == Lookup(s.committed.users, u);
    assert db.tokens + x'.tokens == db.tokens;
    if x'.users != map[] {
      assert db.users + x'.users == db.users[u := x'.users[u]];
    }
  }

  lemma SingleApplies(s: System, t: nat, drop: set<nat>, db: Database)
    requires Ready(s, t) && IsView(s, drop, db)
    requires s.txs[t].call.StoreToken? || s.txs[t].call.RegisterUser? || s.txs[t].call.DisableUser?
    ensures Applies(db, Statement(s, t).value)
  {
    NoWrites(db);
    var x := s.txs[t];
    var x' := Statement(s, t).value;
    match x.call
    case StoreToken(u, jti, family, hash, _) =>
      if !BadStore(x.call) {
        InsertableAgrees(s, t, drop, db, jti, hash);
        if Insertable(db.tokens, jti, hash) {
          assert db.users + x'.users == db.users;
          assert db.tokens + x'.tokens == db.tokens[jti := x'.tokens[jti]];
        }
      }
    case RegisterUser(u, _) => SingleUserApplies(s, t, drop, db, u);
    case DisableUser(u) => SingleUserApplies(s, t, drop, db, u);
  }

  lemma ApplyLogout(db: Database, c: Call, row: RefreshToken)
    requires c.RevokeToken? && !BadRevocation(c) && Lookup(db.tokens, c.jti) == Some(row)
    requires OwnsToken(Some(row), c.userId, c.tokenHash) && row.Live()
    ensures var row' := row.Revoked(c.now, Logout).(replacedByJti := None);
            Apply(db, c) == (Database(db.users + map[], db.tokens + map[c.jti := row']), Ok)
  {
    assert db.users + map[] == db.users;
    var row' := row.Revoked(c.now, Logout).(replacedByJti := None);
    assert db.tokens + map[c.jti := row'] == db.tokens[c.jti := row'];
  }

  lemma LogoutApplies(s: System, t: nat, drop: set<nat>, db: Database)
    requires Ready(s, t) && IsView(s, drop, db) && s.txs[t].call.RevokeToken?
    requires Statement(s, t).value.stage.Finished?
    ensures Applies(db, Statement(s, t).value)
  {
    NoWrites(db);
    var x := s.txs[t];
    if !BadRevocation(x.call) {
      HeldTokenAgrees(s, t, drop, db, x.call.jti);
      if x.stage.TokenLocked? {
        ApplyLogout(db, x.call, x.stage.row);
      }
    }
  }

  lemma ApplyChange(db: Database, c: Call, user: User)
    requires c.ChangePassword? && GoodChange(c, user) && Lookup(db.users, c.userId) == Some(user)
    ensures Apply(db, c) ==
            (Database(db.users + map[c.userId := WithNewPassword(user, c)],
                      RevokedUser(db.tokens, c.userId, c.now, PasswordChange)), Ok)
  {
    assert db.users + map[c.userId := WithNewPassword(user, c)] == db.users[c.userId := WithNewPassword(user, c)];
  }

  lemma PasswordApplies(s: System, t: nat, drop: set<nat>, db: Database)
    requires Ready(s, t) && IsView(s, drop, db) && s.txs[t].call.ChangePassword?
    requires Statement(s, t).value.stage.Finished?
    ensures Applies(db, Statement(s, t).value)
  {
    var c := s.txs[t].call;
    if s.txs[t].stage.UserUpdated? {
      HeldUserAgrees(s, t, drop, db, c.userId);
      UserScanApplies(s, t, drop, db, c.userId, c.now, PasswordChange);
      ApplyChange(db, c, s.txs[t].stage.user);
    } else {
      NoWrites(db);
      if c.userId > 0 && c.oldPassword != c.newPassword {
        HeldUserAgrees(s, t, drop, db, c.userId);
      }
    }
  }

  ghost predicate SameReads(s: System, t: nat, db: Database)
    requires t in s.txs && s.txs[t].call.RotateToken?
  {
    var c := s.txs[t].call;
    Lookup(db.users, c.userId) == Lookup(s.committed.users, c.userId) &&
    Lookup(db.tokens, c.oldJti) == Lookup(s.committed.tokens, c.oldJti)
  }

  lemma RotationEndApplies(s: System, t: nat, drop: set<nat>, db: Database)
    requires Ready(s, t) && IsView(s, drop, db) && s.txs[t].call.RotateToken?
    requires s.txs[t].stage.TokenLocked? && Statement(s, t).value.stage.Finished? && SameReads(s, t, db)
    ensures Applies(db, Statement(s, t).value)
  {
    NoWrites(db);
    var x := s.txs[t];
    var c := x.call;
    match Judge(Some(x.stage.row), c)
    case KillFamily(f) =>
      FamilyScanApplies(s, t, drop, db, c.userId, f, c.clock.write, Replay);
      assert db.users + x.users == db.users;
    case Issue(next) => InsertableAgrees(s, t, drop, db, c.nextJti, c.nextHash);
  }

  lemma InsertedHashIsFree(s: System, t: nat)
    requires Ready(s, t) && s.txs[t].call.RotateToken? && s.txs[t].stage.NextInserted?
    ensures HashFree(s, t, s.txs[t].call.nextHash)
  {
    var c := s.txs[t].call;
    assert c.nextJti in s.txs[t].tokens && s.txs[t].tokens[c.nextJti].tokenHash == c.nextHash;
  }

  lemma ApplyRotation(db: Database, c: Call, row: RefreshToken)
    requires c.RotateToken? && !BadRotation(c) && UserAdmits(Lookup(db.users, c.userId), c.authVersion)
    requires Lookup(db.tokens, c.oldJti) == Some(row) && Judge(Some(row), c).Issue?
    requires Insertable(db.tokens, c.nextJti, c.nextHash)
    ensures var row' := row.Revoked(c.clock.write, Rotated).(replacedByJti := Some(c.nextJti));
            Apply(db, c) ==
            (Database(db.users + map[], db.tokens + map[c.nextJti := Judge(Some(row), c).next][c.oldJti := row']), Ok)
  {
    assert db.users + map[] == db.users;
    var next := Judge(Some(row), c).next;
    var row' := row.Revoked(c.clock.write, Rotated).(replacedByJti := Some(c.nextJti));
    assert db.tokens + map[c.nextJti := next][c.oldJti := row'] == db.tokens[c.nextJti := next][c.oldJti := row'];
  }

  lemma RotationUpdateApplies(s: System, t: nat, drop: set<nat>, db: Database)
    requires Ready(s, t) && IsView(s, drop, db) && s.txs[t].call.RotateToken?
    requires s.txs[t].stage.NextInserted? && SameReads(s, t, db)
    ensures Applies(db, Statement(s, t).value)
  {
    var x := s.txs[t];
    var c := x.call;
    InsertedHashIsFree(s, t);
    InsertableAgrees(s, t, drop, db, c.nextJti, c.nextHash);
    ApplyRotation(db, c, x.stage.row);
  }

  lemma RotationApplies(s: System, t: nat, drop: set<nat>, db: Database)
    requires Ready(s, t) && IsView(s, drop, db) && s.txs[t].call.RotateToken?
    requires Statement(s, t).value.stage.Finished?
    ensures Applies(db, Statement(s, t).value)
  {
    NoWrites(db);
    var x := s.txs[t];
    var c := x.call;
    if !BadRotation(c) {
      HeldUserAgrees(s, t, drop, db, c.userId);
      assert Lookup(db.users, c.userId) == Lookup(s.committed.users, c.userId);
      if !x.stage.Begun? {
        HeldTokenAgrees(s, t, drop, db, c.oldJti);
        assert Lookup(db.tokens, c.oldJti) == Lookup(s.committed.tokens, c.oldJti);
        if x.stage.TokenLocked? {
          RotationEndApplies(s, t, drop, db);
        } else if x.stage.NextInserted? {
          RotationUpdateApplies(s, t, drop, db);
        }
      }
    }
  }

  lemma LastStatementApplies(s: System, t: nat, drop: set<nat>, db: Database)
    requires Ready(s, t) && IsView(s, drop, db)
    requires Statement(s, t).value.stage.Finished?
    ensures Applies(db, Statement(s, t).value)
  {
    match s.txs[t].call
    case RotateToken(_, _, _, _, _, _, _, _) => RotationApplies(s, t, drop, db);
    case RevokeToken(_, _, _, _) => LogoutApplies(s, t, drop, db);
    case ChangePassword(_, _, _, _, _) => PasswordApplies(s, t, drop, db);
    case _ => SingleApplies(s, t, drop, db);
  }

  // ---------- every statement keeps the locks right ----------

  ghost function WithTx(s: System, t: nat, x: Tx): System {
    s.(txs := s.txs[t := x])
  }

  /** No other transaction holds its rows, or inserts one of its hashes. */
  ghost predicate Apart(s: System, t: nat, x: Tx) {
    && (forall o | o in s.txs && o != t :: x.held !! s.txs[o].held)
    && (forall o, k, m | o in s.txs && o != t && k in x.tokens && m in s.txs[o].tokens &&
                         k !in s.committed.tokens && m !in s.committed.tokens ::
          x.tokens[k].tokenHash != s.txs[o].tokens[m].tokenHash)
  }

  /** What one statement leaves of its own transaction. */
  ghost predicate CleanStep(s: System, t: nat, x: Tx) {
    && t in s.txs && x.call == s.txs[t].call && x.after == s.txs[t].after
    && Knows(s.committed, x) && CleanWrites(s.committed, x) && Apart(s, t, x)
  }

  /** A statement that locks free rows and inserts none is clean once its own facts hold. */
  lemma UpdateStepIsClean(s: System, t: nat, x: Tx)
    requires t in s.txs && Exclusive(s) && DistinctHashes(s)
    requires x.call == s.txs[t].call && x.after == s.txs[t].after
    requires Knows(s.committed, x) && CleanWrites(s.committed, x)
    requires forall r | r in x.held :: r in s.txs[t].held || Free(s, t, r)
    requires forall k | k in x.tokens && k !in s.committed.tokens ::
               k in s.txs[t].tokens && x.tokens[k] == s.txs[t].tokens[k]
    ensures CleanStep(s, t, x)
  {
  }

  lemma FreeRowIsExclusive(s: System, t: nat, r: Row)
    requires t in s.txs && Exclusive(s) && Free(s, t, r)
    ensures forall o | o in s.txs && o != t :: s.txs[t].held + {r} !! s.txs[o].held
  {
  }

  /** The rows of a scan are in no other transaction's hands. */
  lemma ScanIsExclusive(s: System, t: nat, u: int, family: Option<string>)
    requires t in s.txs && Exclusive(s) && ScanFree(s, t, u, family)
    ensures forall o | o in s.txs && o != t :: s.txs[t].held + Scanned(s.committed.tokens, u, family) !! s.txs[o].held
  {
    forall o, r | o in s.txs && o != t && r in s.txs[o].held
      ensures r !in Scanned(s.committed.tokens, u, family)
    {
    }
  }

  /** Inserting a row whose key and hash nobody else has. */
  lemma NewRowIsClean(s: System, t: nat, x: Tx, j: string, row: RefreshToken)
    requires t in s.txs && Exclusive(s) && s.txs[t].tokens == map[] && s.txs[t].users == map[]
    requires Free(s, t, TokenRow(j)) && HashFree(s, t, row.tokenHash) && j !in s.committed.tokens
    requires x.call == s.txs[t].call && x.after == s.txs[t].after && x.users == map[]
    requires x.held == s.txs[t].held + {TokenRow(j)} && x.tokens == map[j := row]
    requires Knows(s.committed, x)
    ensures CleanStep(s, t, x)
  {
    FreeRowIsExclusive(s, t, TokenRow(j));
  }

  lemma InsertCallIsClean(s: System, t: nat)
    requires Ready(s, t) && s.txs[t].call.StoreToken?
    ensures CleanStep(s, t, Statement(s, t).value)
  {
    var x := Statement(s, t).value;
    if x.tokens != map[] {
      NewRowIsClean(s, t, x, x.call.jti, x.tokens[x.call.jti]);
    } else {
      UpdateStepIsClean(s, t, x);
    }
  }

  lemma UserCallIsClean(s: System, t: nat)
    requires Ready(s, t) && (s.txs[t].call.RegisterUser? || s.txs[t].call.DisableUser?)
    ensures CleanStep(s, t, Statement(s, t).value)
  {
    UpdateStepIsClean(s, t, Statement(s, t).value);
  }

  lemma LogoutReadIsClean(s: System, t: nat)
    requires Ready(s, t) && s.txs[t].call.RevokeToken? && s.txs[t].stage.Begun?
    ensures CleanStep(s, t, Statement(s, t).value)
  {
    UpdateStepIsClean(s, t, Statement(s, t).value);
  }

  lemma LogoutWriteIsClean(s: System, t: nat)
    requires Ready(s, t) && s.txs[t].call.RevokeToken? && s.txs[t].stage.TokenLocked?
    ensures CleanStep(s, t, Statement(s, t).value)
  {
    var x := Statement(s, t).value;
    assert x.held == {TokenRow(s.txs[t].call.jti)} && x.tokens.Keys == {s.txs[t].call.jti};
    UpdateStepIsClean(s, t, x);
  }

  lemma LogoutIsClean(s: System, t: nat)
    requires Ready(s, t) && s.txs[t].call.RevokeToken?
    ensures CleanStep(s, t, Statement(s, t).value)
  {
    if s.txs[t].stage.TokenLocked? {
      LogoutWriteIsClean(s, t);
    } else {
      LogoutReadIsClean(s, t);
    }
  }

  lemma PasswordReadIsClean(s: System, t: nat)
    requires Ready(s, t) && s.txs[t].call.ChangePassword? && !s.txs[t].stage.UserUpdated?
    ensures CleanStep(s, t, Statement(s, t).value)
  {
    UpdateStepIsClean(s, t, Statement(s, t).value);
  }

  lemma PasswordScanIsClean(s: System, t: nat)
    requires Ready(s, t) && s.txs[t].call.ChangePassword? && s.txs[t].stage.UserUpdated?
    ensures CleanStep(s, t, Statement(s, t).value)
  {
    ScanIsExclusive(s, t, s.txs[t].call.userId, None);
  }

  lemma RotationReadIsClean(s: System, t: nat)
    requires Ready(s, t) && s.txs[t].call.RotateToken?
    requires s.txs[t].stage.Begun? || s.txs[t].stage.UserLocked?
    ensures CleanStep(s, t, Statement(s, t).value)
  {
    UpdateStepIsClean(s, t, Statement(s, t).value);
  }

  lemma ReplayIsClean(s: System, t: nat)
    requires Ready(s, t) && s.txs[t].call.RotateToken? && s.txs[t].stage.TokenLocked?
    requires Judge(Some(s.txs[t].stage.row), s.txs[t].call).KillFamily?
    ensures CleanStep(s, t, Statement(s, t).value)
  {
    var family := Judge(Some(s.txs[t].stage.row), s.txs[t].call).familyId;
    ScanIsExclusive(s, t, s.txs[t].call.userId, Some(family));
  }

  lemma InsertedIsClean(s: System, t: nat, x': Tx, next: RefreshToken)
    requires Settled(s) && t in s.txs && Knows(s.committed, s.txs[t])
    requires s.txs[t].call.RotateToken? && s.txs[t].stage.TokenLocked?
    requires var x, c := s.txs[t], s.txs[t].call;
             && Judge(Some(x.stage.row), c) == Issue(next) && Insertable(s.committed.tokens, c.nextJti, c.nextHash)
             && Free(s, t, TokenRow(c.nextJti)) && HashFree(s, t, c.nextHash)
             && x' == x.(stage := NextInserted(x.stage.row), held := x.held + {TokenRow(c.nextJti)},
                         tokens := map[c.nextJti := next])
    ensures CleanStep(s, t, x')
  {
    assert RotationLocked(s.committed, x', s.txs[t].stage.row);
    NewRowIsClean(s, t, x', s.txs[t].call.nextJti, next);
  }

  lemma InsertIsClean(s: System, t: nat)
    requires Ready(s, t) && s.txs[t].call.RotateToken? && s.txs[t].stage.TokenLocked?
    requires Judge(Some(s.txs[t].stage.row), s.txs[t].call).Issue?
    ensures CleanStep(s, t, Statement(s, t).value)
  {
    var x := s.txs[t];
    var c := x.call;
    if Insertable(s.committed.tokens, c.nextJti, c.nextHash) {
      InsertedIsClean(s, t, Statement(s, t).value, Judge(Some(x.stage.row), c).next);
    } else {
      assert Statement(s, t).value == x.(stage := Finished(TokenNotSaved));
    }
  }

  lemma UpdateIsClean(s: System, t: nat)
    requires Ready(s, t) && s.txs[t].call.RotateToken? && s.txs[t].stage.NextInserted?
    ensures CleanStep(s, t, Statement(s, t).value)
  {
    UpdateStepIsClean(s, t, Statement(s, t).value);
  }

  lemma RotationIsClean(s: System, t: nat)
    requires Ready(s, t) && s.txs[t].call.RotateToken?
    ensures CleanStep(s, t, Statement(s, t).value)
  {
    match s.txs[t].stage
    case TokenLocked(row) =>
      if Judge(Some(row), s.txs[t].call).KillFamily? {
        ReplayIsClean(s, t);
      } else {
        InsertIsClean(s, t);
      }
    case NextInserted(_) => UpdateIsClean(s, t);
    case _ => RotationReadIsClean(s, t);
  }

  lemma StatementIsClean(s: System, t: nat)
    requires Ready(s, t)
    ensures CleanStep(s, t, Statement(s, t).value)
  {
    match s.txs[t].call
    case RotateToken(_, _, _, _, _, _, _, _) => RotationIsClean(s, t);
    case RevokeToken(_, _, _, _) => LogoutIsClean(s, t);
    case ChangePassword(_, _, _, _, _) =>
      if s.txs[t].stage.UserUpdated? {
        PasswordScanIsClean(s, t);
      } else {
        PasswordReadIsClean(s, t);
      }
    case StoreToken(_, _, _, _, _) => InsertCallIsClean(s, t);
    case _ => UserCallIsClean(s, t);
  }
}
