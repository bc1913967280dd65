/**
 Why a rotation locks the user row: with a plain read in its place, a successor can slip in behind
 the revocation of a password change, and no serial order explains the outcome.
 */
module UserLock {
  import opened SessionModel
  import Text
  import opened FamilyProtocol
  import opened FamilyTheorems
  import opened RowLocks
  import opened Serializability
  import opened SerialTheorem
  import opened ConcurrentSessions

  /** The actions of `RowLocks`, and a rotation's read of the user row that takes no lock. */
  datatype WeakAction = Strict(action: Action) | PlainRead(tx: nat)

  ghost predicate WeakEnabled(iss: Issuer, s: System, a: WeakAction) {
    match a
    case Strict(action) => Enabled(iss, s, action)
    case PlainRead(t) =>
      && t in s.txs && s.txs[t].call.RotateToken? && s.txs[t].stage.Begun? && !BadRotation(s.txs[t].call)
      && UserAdmits(Lookup(s.committed.users, s.txs[t].call.userId), s.txs[t].call.authVersion)
  }

  ghost function WeakDo(iss: Issuer, s: System, a: WeakAction): System
    requires WeakEnabled(iss, s, a)
  {
    match a
    case Strict(action) => Do(iss, s, action)
    case PlainRead(t) => WithTx(s, t, s.txs[t].(stage := UserLocked(s.committed.users[s.txs[t].call.userId])))
  }

  ghost predicate WeakRunnable(iss: Issuer, actions: seq<WeakAction>)
    decreases |actions|, 0
  {
    actions != [] ==>
      var init := actions[..|actions| - 1];
      WeakRunnable(iss, init) && WeakEnabled(iss, WeakReached(iss, init), actions[|actions| - 1])
  }

  ghost function WeakReached(iss: Issuer, actions: seq<WeakAction>): System
    requires WeakRunnable(iss, actions)
    decreases |actions|, 1
  {
    if actions == [] then IDLE
    else WeakDo(iss, WeakReached(iss, actions[..|actions| - 1]), actions[|actions| - 1])
  }

  ghost predicate CanReach(iss: Issuer, s: System) {
    exists actions :: WeakRunnable(iss, actions) && WeakReached(iss, actions) == s
  }

  lemma Next(iss: Issuer, s: System, a: WeakAction) returns (s': System)
    requires CanReach(iss, s) && WeakEnabled(iss, s, a)
    ensures s' == WeakDo(iss, s, a) && CanReach(iss, s')
  {
    var actions :| WeakRunnable(iss, actions) && WeakReached(iss, actions) == s;
    var more := actions + [a];
    assert more[..|more| - 1] == actions;
    s' := WeakReached(iss, more);
  }

  lemma Start(iss: Issuer)
    ensures CanReach(iss, IDLE)
  {
    assert WeakRunnable(iss, []) && WeakReached(iss, []) == IDLE;
  }

  // ---------- the run ----------

  /** A registration, a login with its token, a rotation of that token, and a password change. */
  datatype Race = Race(iss: Issuer, register: Call, login: Call, rotation: Call, change: Call) {
    ghost predicate Valid() {
      && register.RegisterUser? && login.StoreToken? && rotation.RotateToken? && change.ChangePassword?
      && register.userId == login.userId == rotation.userId == change.userId
      && iss.WellFormed() && iss.Sanctions(register) && iss.Sanctions(login) && iss.Sanctions(rotation)
      && rotation.oldJti == login.jti && rotation.nextJti != login.jti && rotation.nextHash != login.tokenHash
      && iss.claims[login.jti].authVersion == 1 && !BadStore(login) && !BadRotation(rotation)
      && rotation.clock.check < login.expiresAt
      && GoodChange(change, User())
    }

    function User(): User
      requires register.RegisterUser?
    {
      SessionModel.User(register.passwordHash, Active, 1)
    }
  }

  /** What the later steps need of a state. */
  ghost predicate At(s: System, committed: Database, txs: map<nat, Tx>, answered: set<nat>) {
    && s.committed == committed && s.txs == txs && s.replies.Keys == answered
    && (forall t | t in answered :: s.replies[t] == Ok)
  }

  ghost predicate HasAsked(s: System, t: nat, c: Call, after: set<nat>) {
    t in s.asked && s.asked[t] == Request(c, after)
  }

  function Registered(r: Race): Database
    requires r.register.RegisterUser?
  {
    Database(map[r.register.userId := r.User()], map[])
  }

  lemma RegisterFirst(r: Race) returns (s: System)
    requires r.Valid()
    ensures CanReach(r.iss, s) && s.asked.Keys == {0}
    ensures At(s, Registered(r), map[], {0})
  {
    Start(r.iss);
    s := Next(r.iss, IDLE, Strict(Begin(0, r.register)));
    s := Next(r.iss, s, Strict(Execute(0)));
    s := Next(r.iss, s, Strict(Commit(0)));
    assert s.committed.users == map[r.register.userId := r.User()];
  }

  lemma BeginNext(iss: Issuer, s: System, t: nat, c: Call) returns (s': System)
    requires CanReach(iss, s) && t !in s.asked && iss.Permits(s.committed, c)
    ensures CanReach(iss, s')
    ensures s' == s.(txs := s.txs[t := Tx(c, Begun, {}, map[], map[], s.replies.Keys)],
                     asked := s.asked[t := Request(c, s.replies.Keys)])
  {
    s' := Next(iss, s, Strict(Begin(t, c)));
  }

  // The password change locks the user, writes the new version and scans for tokens; there is none yet.

  function NewUser(r: Race): User
    requires r.register.RegisterUser? && r.change.ChangePassword?
  {
    WithNewPassword(r.User(), r.change)
  }

  function ChangeTx(r: Race, stage: Stage, users: Users): Tx
    requires r.change.ChangePassword?
  {
    Tx(r.change, stage, {UserRow(r.change.userId)}, users, map[], {0})
  }

  /** The change after its last statement, not yet committed. */
  function ChangeDone(r: Race): Tx
    requires r.register.RegisterUser? && r.change.ChangePassword?
  {
    ChangeTx(r, Finished(Ok), map[r.change.userId := NewUser(r)])
  }

  lemma ChangeLocks(r: Race) returns (s: System)
    requires r.Valid()
    ensures CanReach(r.iss, s) && s.asked.Keys == {0, 3} && HasAsked(s, 3, r.change, {0})
    ensures At(s, Registered(r), map[3 := ChangeTx(r, UserLocked(r.User()), map[])], {0})
  {
    s := RegisterFirst(r);
    s := BeginNext(r.iss, s, 3, r.change);
    s := Next(r.iss, s, Strict(Execute(3)));
    assert s.txs[3] == ChangeTx(r, UserLocked(r.User()), map[]);
  }

  lemma ChangeWrites(r: Race) returns (s: System)
    requires r.Valid()
    ensures CanReach(r.iss, s) && s.asked.Keys == {0, 3} && HasAsked(s, 3, r.change, {0})
    ensures At(s, Registered(r), map[3 := ChangeTx(r, UserUpdated(r.User()), map[r.change.userId := NewUser(r)])], {0})
  {
    s := ChangeLocks(r);
    s := Next(r.iss, s, Strict(Execute(3)));
    assert s.txs[3] == ChangeTx(r, UserUpdated(r.User()), map[r.change.userId := NewUser(r)]);
  }

  lemma ChangeScans(r: Race) returns (s: System)
    requires r.Valid()
    ensures CanReach(r.iss, s) && s.asked.Keys == {0, 3} && HasAsked(s, 3, r.change, {0})
    ensures At(s, Registered(r), map[3 := ChangeDone(r)], {0})
  {
    s := ChangeWrites(r);
    s := Next(r.iss, s, Strict(Execute(3)));
    assert s.txs[3] == ChangeDone(r) by {
      assert ScanWrites(map[], r.change.userId, None, r.change.now, PasswordChange) == map[];
      assert Scanned(map[], r.change.userId, None) == {};
    }
  }

  // The login stores its token and answers.

  function LoginRow(r: Race): RefreshToken
    requires r.login.StoreToken?
  {
    NewRow(r.login.userId, r.login.familyId, r.login.tokenHash, r.login.expiresAt)
  }

  lemma LoginBegins(r: Race) returns (s: System)
    requires r.Valid()
    ensures CanReach(r.iss, s) && s.asked.Keys == {0, 1, 3} && HasAsked(s, 3, r.change, {0})
    ensures At(s, Registered(r), map[1 := Tx(r.login, Begun, {}, map[], map[], {0}), 3 := ChangeDone(r)], {0})
  {
    s := ChangeScans(r);
    s := BeginNext(r.iss, s, 1, r.login);
  }

  /** The login after its insert, not yet committed. */
  function LoginDone(r: Race): Tx
    requires r.login.StoreToken?
  {
    Tx(r.login, Finished(Ok), {TokenRow(r.login.jti)}, map[], map[r.login.jti := LoginRow(r)], {0})
  }

  lemma LoginIsFree(r: Race, s: System)
    requires r.Valid()
    requires At(s, Registered(r), map[1 := Tx(r.login, Begun, {}, map[], map[], {0}), 3 := ChangeDone(r)], {0})
    ensures Statement(s, 1) == Some(LoginDone(r))
  {
    assert Free(s, 1, TokenRow(r.login.jti)) && HashFree(s, 1, r.login.tokenHash);
    assert {} + {TokenRow(r.login.jti)} == LoginDone(r).held;
  }

  lemma LoginInserts(r: Race) returns (s: System)
    requires r.Valid()
    ensures CanReach(r.iss, s) && s.asked.Keys == {0, 1, 3} && HasAsked(s, 3, r.change, {0})
    ensures At(s, Registered(r), map[1 := LoginDone(r), 3 := ChangeDone(r)], {0})
  {
    s := LoginBegins(r);
    LoginIsFree(r, s);
    s := Next(r.iss, s, Strict(Execute(1)));
  }

  function LoggedIn(r: Race): Database
    requires r.register.RegisterUser? && r.login.StoreToken?
  {
    Database(map[r.register.userId := r.User()], map[r.login.jti := LoginRow(r)])
  }

  lemma LoginCommits(r: Race, s: System)
    requires r.Valid() && At(s, Registered(r), map[1 := LoginDone(r), 3 := ChangeDone(r)], {0})
    ensures Enabled(r.iss, s, Commit(1))
    ensures At(Do(r.iss, s, Commit(1)), LoggedIn(r), map[3 := ChangeDone(r)], {0, 1})
  {
    assert s.committed.tokens + LoginDone(r).tokens == LoggedIn(r).tokens;
    assert s.committed.users + LoginDone(r).users == LoggedIn(r).users;
  }

  lemma LoginRuns(r: Race) returns (s: System)
    requires r.Valid()
    ensures CanReach(r.iss, s) && s.asked.Keys == {0, 1, 3} && HasAsked(s, 3, r.change, {0})
    ensures At(s, LoggedIn(r), map[3 := ChangeDone(r)], {0, 1})
  {
    s := LoginInserts(r);
    LoginCommits(r, s);
    s := Next(r.iss, s, Strict(Commit(1)));
  }

  // The rotation begins after the login has answered, and reads the version the change is replacing.

  /** The rotation at this stage beside the finished change. */
  ghost predicate Rotating(r: Race, s: System, stage: Stage, held: set<Row>, tokens: Tokens)
    requires r.register.RegisterUser? && r.change.ChangePassword? && r.login.StoreToken?
  {
    && At(s, LoggedIn(r), map[2 := Tx(r.rotation, stage, held, map[], tokens, {0, 1}), 3 := ChangeDone(r)], {0, 1})
    && HasAsked(s, 2, r.rotation, {0, 1}) && HasAsked(s, 3, r.change, {0})
  }

  lemma RotationReads(r: Race) returns (s: System)
    requires r.Valid()
    ensures CanReach(r.iss, s) && Rotating(r, s, UserLocked(r.User()), {}, map[])
  {
    s := LoginRuns(r);
    s := BeginNext(r.iss, s, 2, r.rotation);
    s := Next(r.iss, s, PlainRead(2));
    assert s.txs[2] == Tx(r.rotation, UserLocked(r.User()), {}, map[], map[], {0, 1});
  }

  lemma RotationLocks(r: Race) returns (s: System)
    requires r.Valid()
    ensures CanReach(r.iss, s) && Rotating(r, s, TokenLocked(LoginRow(r)), {TokenRow(r.login.jti)}, map[])
  {
    s := RotationReads(r);
    assert Judge(Some(LoginRow(r)), r.rotation).Issue?;
    s := Next(r.iss, s, Strict(Execute(2)));
    assert s.txs[2] == Tx(r.rotation, TokenLocked(LoginRow(r)), {TokenRow(r.login.jti)}, map[], map[], {0, 1});
  }

  function Successor(r: Race): RefreshToken
    requires r.login.StoreToken? && r.rotation.RotateToken?
  {
    NewRow(r.login.userId, r.login.familyId, r.rotation.nextHash, r.rotation.nextExpiresAt)
  }

  function InsertedTx(r: Race): Tx
    requires r.login.StoreToken? && r.rotation.RotateToken?
  {
    Tx(r.rotation, NextInserted(LoginRow(r)), {TokenRow(r.login.jti), TokenRow(r.rotation.nextJti)},
       map[], map[r.rotation.nextJti := Successor(r)], {0, 1})
  }

  lemma InsertIsFree(r: Race, s: System)
    requires r.Valid() && Rotating(r, s, TokenLocked(LoginRow(r)), {TokenRow(r.login.jti)}, map[])
    ensures Statement(s, 2) == Some(InsertedTx(r))
  {
    assert Judge(Some(LoginRow(r)), r.rotation) == Issue(Successor(r));
    assert Free(s, 2, TokenRow(r.rotation.nextJti)) && HashFree(s, 2, r.rotation.nextHash);
    assert {TokenRow(r.login.jti)} + {TokenRow(r.rotation.nextJti)} == InsertedTx(r).held;
  }

  lemma RotationInserts(r: Race) returns (s: System)
    requires r.Valid()
    ensures CanReach(r.iss, s)
    ensures Rotating(r, s, NextInserted(LoginRow(r)), InsertedTx(r).held, InsertedTx(r).tokens)
  {
    s := RotationLocks(r);
    InsertIsFree(r, s);
    s := Next(r.iss, s, Strict(Execute(2)));
  }

  ghost predicate SuccessorLives(r: Race, s: System)
    requires r.rotation.RotateToken?
  {
    r.rotation.nextJti in s.committed.tokens && s.committed.tokens[r.rotation.nextJti].Live()
  }

  lemma RotationEnds(r: Race) returns (s: System)
    requires r.Valid()
    ensures CanReach(r.iss, s) && s.txs == map[3 := ChangeDone(r)] && SuccessorLives(r, s)
    ensures 2 in s.replies && s.replies[2] == Ok && HasAsked(s, 2, r.rotation, {0, 1}) && HasAsked(s, 3, r.change, {0})
  {
    s := RotationInserts(r);
    s := Next(r.iss, s, Strict(Execute(2)));
    s := Next(r.iss, s, Strict(Commit(2)));
  }

  /** Both are told `Ok`, and the successor is live in the tables that the change leaves. */
  lemma RaceEnds(r: Race) returns (s: System)
    requires r.Valid()
    ensures CanReach(r.iss, s) && s.txs == map[] && SuccessorLives(r, s)
    ensures Answered(s, 2, r.rotation, Ok) && Answered(s, 3, r.change, Ok) && 1 in s.asked[2].after
  {
    s := RotationEnds(r);
    s := Next(r.iss, s, Strict(Commit(3)));
  }

  // ---------- no serial order ----------

  lemma ChangeRevokes(db: Database, c: Call, j: string)
    requires c.ChangePassword? && Apply(db, c).1.Ok? && j in db.tokens && db.tokens[j].userId == c.userId
    ensures j in Apply(db, c).0.tokens && !Apply(db, c).0.tokens[j].Live()
  {
  }

  lemma AfterOne(calls: seq<Call>, c: Call)
    ensures After(calls + [c]) == Apply(After(calls), c).0
  {
    AfterAppend(calls, [c]);
    assert calls + [c][..0] == calls;
  }

  /** In a serial run a rotation and a later password change leave no live successor. */
  lemma ChangeKillsSuccessor(calls: seq<Call>, rotation: Call, mid: seq<Call>, change: Call, more: seq<Call>)
    requires rotation.RotateToken? && Apply(After(calls), rotation).1.Ok?
    requires change.ChangePassword? && Apply(After(calls + [rotation] + mid), change).1.Ok?
    requires change.userId == rotation.userId
    ensures var db := After(calls + [rotation] + mid + [change] + more);
            rotation.nextJti in db.tokens && !db.tokens[rotation.nextJti].Live()
  {
    var before, j := calls + [rotation] + mid, rotation.nextJti;
    assert j in After(before).tokens && After(before).tokens[j].userId == rotation.userId by {
      AfterOne(calls, rotation);
      IssueEffect(After(calls), rotation);
      RevocationIsFinal(calls + [rotation], mid);
    }
    AfterOne(before, change);
    ChangeRevokes(After(before), change, j);
    RevocationIsFinal(before + [change], more);
  }

  lemma OrderPair(r: Race, s: System, order: seq<Entry>, i: nat, k: nat)
    requires r.Valid() && IsSerialOrder(r.iss, s, order)
    requires i < |order| && k < |order| && order[i].call == r.rotation && order[k].call == r.change
    requires order[i].answer.Ok? && order[k].answer.Ok?
    ensures r.rotation.nextJti in s.committed.tokens && !s.committed.tokens[r.rotation.nextJti].Live()
  {
    AnswerAt(r.iss, order, i);
    AnswerAt(r.iss, order, k);
    if i < k {
      CallsAround(order, k);
      CallsBetween(order, i, k);
      ChangeKillsSuccessor(Calls(order[..i]), r.rotation, Calls(order[i + 1..k]), r.change, Calls(order[k + 1..]));
    } else {
      assert k < i;
      CallsBetween(order, k, i);
      var calls := Calls(order[..k]);
      VersionAfterChange(calls, r.change);
      ReachableInvariant(r.iss, calls);
      OldVersionIsRefused(calls + [r.change], Calls(order[k + 1..i]), r.change.userId, 1, r.rotation, "", false);
      assert false;
    }
  }

  /**
   A rotation that begins after its login answered, and a password change, are both told `Ok`, the
   successor stays live, and no serial order has these answers and tables.
   */
  lemma SuccessorSlipsIn(r: Race) returns (s: System)
    requires r.Valid()
    ensures CanReach(r.iss, s) && s.txs == map[] && SuccessorLives(r, s)
    ensures Answered(s, 2, r.rotation, Ok) && Answered(s, 3, r.change, Ok) && 1 in s.asked[2].after
    ensures forall order: seq<Entry> :: !IsSerialOrder(r.iss, s, order)
  {
    s := RaceEnds(r);
    forall order: seq<Entry>
      ensures !IsSerialOrder(r.iss, s, order)
    {
      if IsSerialOrder(r.iss, s, order) {
        var i := PlaceOf(r.iss, s, order, 2, r.rotation, Ok);
        var k := PlaceOf(r.iss, s, order, 3, r.change, Ok);
        OrderPair(r, s, order, i, k);
      }
    }
  }

  // ---------- such a race exists ----------

  const RACE := Race(
    Issuer(10, map["a" := Claims(1, 1, "x", 0, None), "b" := Claims(1, 1, "y", 1, Some("a"))]),
    RegisterUser(1, PasswordHash(0, "old password")),
    StoreToken(1, "a", "a", "x", 10),
    RotateToken(1, 1, "a", "x", "b", "y", 11, Clock(2, 2, 2)),
    ChangePassword(1, "old password", "new password", 0, 3))

  lemma RaceIsSigned()
    ensures var iss := RACE.iss;
            iss.WellFormed() && iss.Sanctions(RACE.register) && iss.Sanctions(RACE.login) &&
            iss.Sanctions(RACE.rotation)
  {
  }

  lemma {:induction false} PasswordFits(password: string)
    requires forall i | 0 <= i < |password| :: password[i] < '\U{80}'
    ensures Text.Utf8Length(password) == |password|
  {
    if password != "" {
      PasswordFits(password[1..]);
    }
  }

  lemma ShortChangeIsGood(c: Call, user: User)
    requires c.ChangePassword? && c.userId > 0 && c.oldPassword != c.newPassword
    requires user.passwordHash.password == c.oldPassword
    requires MIN_PASSWORD_CHARACTERS <= |c.newPassword| <= MAX_PASSWORD_BYTES
    requires forall i | 0 <= i < |c.newPassword| :: c.newPassword[i] < '\U{80}'
    ensures GoodChange(c, user)
  {
    PasswordFits(c.newPassword);
  }

  lemma NewPasswordFits()
    ensures GoodChange(RACE.change, RACE.User())
  {
    ShortChangeIsGood(RACE.change, RACE.User());
  }

  /** The premises of `SuccessorSlipsIn` can be met. */
  lemma RaceExists()
    ensures RACE.Valid()
  {
    RaceIsSigned();
    NewPasswordFits();
  }
}
