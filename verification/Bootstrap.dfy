/** The one-time creation of the administrator, alone and beside registrations and role assignments. */
module Bootstrap {
  import opened SessionModel
  import opened Rbac
  import opened Text

  const ADMIN := "admin"
  const USER := "user"

  function RowsOf(userRoles: UserRoles, roleId: int): set<(int, int)> {
    set r | r in userRoles && r.1 == roleId
  }

  /** The tables and the answer of one bootstrap; `id` is the key the insert would generate. */
  function BootstrapResult(roles: map<string, int>, userRoles: UserRoles, names: map<string, int>, name: string,
                           password: string, id: int)
    : (UserRoles, map<string, int>, RbacAnswer)
  {
    var username := Trim(name);
    if Utf8Length(username) < 3 then (userRoles, names, NameTooShort)
    else if !ValidPassword(password) then (userRoles, names, BadPassword)
    else if ADMIN !in roles then (userRoles, names, NotInitialized)
    else if RowsOf(userRoles, roles[ADMIN]) != {} then (userRoles, names, AdminExists)
    else if username in names then (userRoles, names, NameTaken)
    else if USER !in roles then (userRoles, names, NotInitialized)
    else (userRoles + {(id, roles[USER]), (id, roles[ADMIN])}, names[username := id], Assigned)
  }

  /**
   The first administrator is created exactly if both roles exist, nobody has the admin role, the
   trimmed name is free and has at least 3 bytes, and the password is in bounds.
   */
  lemma BootstrapSucceedsExactly(roles: map<string, int>, userRoles: UserRoles, names: map<string, int>, name: string,
                                 password: string, id: int)
    ensures var (userRoles', names', answer) := BootstrapResult(roles, userRoles, names, name, password, id);
            && (answer == Assigned <==>
                && "admin" in roles && "user" in roles && (forall r | r in userRoles :: r.1 != roles["admin"])
                && Trim(name) !in names && 3 <= Utf8Length(Trim(name))
                && 12 <= |password| && Utf8Length(password) <= 72)
            && (answer == AdminExists ==> "admin" in roles && exists r :: r in userRoles && r.1 == roles["admin"])
            && (answer == NameTaken ==> Trim(name) in names)
            && (answer == Assigned ==>
                  && userRoles' == userRoles + {(id, roles["user"]), (id, roles["admin"])}
                  && names'.Keys == names.Keys + {Trim(name)} && names'[Trim(name)] == id
                  && (forall n | n in names :: names'[n] == names[n]))
            && (answer != Assigned ==> userRoles' == userRoles && names' == names)
  {
    if ADMIN in roles {
      var rows := RowsOf(userRoles, roles[ADMIN]);
      assert rows == {} <==> forall r | r in userRoles :: r.1 != roles[ADMIN] by {
        if r :| r in userRoles && r.1 == roles[ADMIN] {
          assert r in rows;
        }
      }
      if rows != {} {
        var r :| r in rows;
      }
    }
  }

  class AdminService {
    const db: RbacDatabase
    const rbacRepo: RbacRepository

    constructor (db: RbacDatabase)
      ensures this.db == db
    {
      this.db := db;
      this.rbacRepo := new RbacRepository();
    }

    method BootstrapAdmin(name: string, password: string, id: int) returns (answer: RbacAnswer)
      modifies db
      ensures db.roles == old(db.roles)
      ensures (db.userRoles, db.userNames, answer) ==
              BootstrapResult(db.roles, old(db.userRoles), old(db.userNames), name, password, id)
    {
      var username := Trim(name);
      if Utf8Length(username) < 3 {
        return NameTooShort;
      }
      if !ValidPassword(password) {
        return BadPassword;
      }
      var savedRoles, savedNames := db.userRoles, db.userNames;
      answer := BootstrapInTransaction(username, id);
      if !answer.Assigned? {
        db.userRoles, db.userNames := savedRoles, savedNames;
      }
    }

    /** The body of the transaction: an answer other than `Assigned` asks for a rollback. */
    method BootstrapInTransaction(username: string, id: int) returns (answer: RbacAnswer)
      modifies db`userRoles, db`userNames
      ensures answer ==
              if ADMIN !in db.roles then NotInitialized
              else if RowsOf(old(db.userRoles), db.roles[ADMIN]) != {} then AdminExists
              else if username in old(db.userNames) then NameTaken
              else if USER !in db.roles then NotInitialized
              else Assigned
      ensures answer.Assigned? ==>
                db.userRoles == old(db.userRoles) + {(id, db.roles[USER]), (id, db.roles[ADMIN])} &&
                db.userNames == old(db.userNames)[username := id]
    {
      var adminRole := rbacRepo.FindRoleByCode(db, ADMIN);
      if adminRole.None? {
        return NotInitialized;
      }
      var adminCount := |set r | r in db.userRoles && r.1 == adminRole.value|;
      if adminCount > 0 {
        return AdminExists;
      }
      assert RowsOf(db.userRoles, adminRole.value) == {};
      if username in db.userNames {
        return NameTaken;
      }
      db.userNames := db.userNames[username := id];
      answer := rbacRepo.AssignRoleToUserByCode(db, id, USER);
      if !answer.Assigned? {
        return NotInitialized;
      }
      answer := rbacRepo.AssignRoleToUserByCode(db, id, ADMIN);
    }
  }

  // ---------- bootstraps beside each other ----------

  /** A bootstrap transaction: at its start, holding the admin role's row, or past the count. */
  datatype Stage = Begun | Locked | Counted

  datatype System = System(roles: map<string, int>, userRoles: UserRoles, txs: map<nat, Stage>)

  datatype Event =
    | Register(id: int)
    | Assign(id: int, codes: seq<string>)
    | Open(tx: nat)
    | LockRole(tx: nat)
    | CountAdmins(tx: nat)
    | CreateAdmin(tx: nat, id: int)
    | Close(tx: nat)

  ghost predicate Possible(s: System, e: Event) {
    match e
    case Register(_) => true
    case Assign(_, _) => true
    case Open(t) => t !in s.txs
    // The row lock is free.
    case LockRole(t) => t in s.txs && s.txs[t].Begun? && ADMIN in s.roles && forall o | o in s.txs :: s.txs[o].Begun?
    case CountAdmins(t) => t in s.txs && s.txs[t].Locked?
    case CreateAdmin(t, _) => t in s.txs && s.txs[t].Counted? && ADMIN in s.roles && USER in s.roles
    // A refusal or a rollback, at any point.
    case Close(t) => t in s.txs
  }

  function AdminRows(s: System): set<(int, int)> {
    if ADMIN in s.roles then RowsOf(s.userRoles, s.roles[ADMIN]) else {}
  }

  ghost function Step(s: System, e: Event): System
    requires Possible(s, e)
  {
    match e
    case Register(id) =>
      if USER in s.roles then s.(userRoles := s.userRoles + {(id, s.roles[USER])}) else s
    case Assign(id, codes) => s.(userRoles := Assignment(s.roles, s.userRoles, id, codes).0)
    case Open(t) => s.(txs := s.txs[t := Begun])
    case LockRole(t) => s.(txs := s.txs[t := Locked])
    case CountAdmins(t) => s.(txs := if AdminRows(s) != {} then s.txs - {t} else s.txs[t := Counted])
    case CreateAdmin(t, id) =>
      s.(userRoles := s.userRoles + {(id, s.roles[USER]), (id, s.roles[ADMIN])}, txs := s.txs - {t})
    case Close(t) => s.(txs := s.txs - {t})
  }

  ghost predicate Runs(s0: System, events: seq<Event>)
    decreases |events|, 0
  {
    events != [] ==>
      var init := events[..|events| - 1];
      Runs(s0, init) && Possible(Final(s0, init), events[|events| - 1])
  }

  ghost function Final(s0: System, events: seq<Event>): System
    requires Runs(s0, events)
    decreases |events|, 1
  {
    if events == [] then s0 else Step(Final(s0, events[..|events| - 1]), events[|events| - 1])
  }

  predicate NoAssignment(events: seq<Event>) {
    forall i | 0 <= i < |events| :: !events[i].Assign?
  }

  ghost predicate Fresh(s: System) {
    s.txs == map[] && (ADMIN in s.roles && USER in s.roles ==> s.roles[ADMIN] != s.roles[USER])
  }

  /** One transaction past its start; while it has counted none, there is none. */
  ghost predicate Guarded(s: System) {
    && (ADMIN in s.roles && USER in s.roles ==> s.roles[ADMIN] != s.roles[USER])
    && (forall t, o | t in s.txs && o in s.txs && !s.txs[t].Begun? && !s.txs[o].Begun? :: t == o)
    && (forall t | t in s.txs && s.txs[t].Counted? :: AdminRows(s) == {})
  }

  lemma StepKeepsGuarded(s: System, e: Event)
    requires Guarded(s) && Possible(s, e) && !e.Assign?
    ensures Guarded(Step(s, e))
    ensures AdminRows(s) <= AdminRows(Step(s, e))
    ensures |AdminRows(s)| <= 1 ==> |AdminRows(Step(s, e))| <= 1
  {
    if e.Register? || e.Close? || e.Open? || e.LockRole? || e.CountAdmins? {
      assert AdminRows(Step(s, e)) == AdminRows(s);
    } else {
      assert AdminRows(s) == {};
      assert AdminRows(Step(s, e)) == {(e.id, s.roles[ADMIN])};
    }
  }

  /** From no administrator, registrations and bootstraps in any interleaving make at most one. */
  lemma {:induction false} AtMostOneAdmin(s0: System, events: seq<Event>)
    requires Fresh(s0) && Runs(s0, events) && NoAssignment(events) && AdminRows(s0) == {}
    ensures Guarded(Final(s0, events)) && |AdminRows(Final(s0, events))| <= 1
  {
    if events != [] {
      var init := events[..|events| - 1];
      AtMostOneAdmin(s0, init);
      StepKeepsGuarded(Final(s0, init), events[|events| - 1]);
    }
  }

  lemma StepKeepsAdmins(s: System, e: Event)
    requires Possible(s, e) && !e.Assign?
    ensures AdminRows(s) <= AdminRows(Step(s, e))
  {
  }

  ghost predicate PastCount(s: System, t: nat) {
    t in s.txs && s.txs[t].Counted?
  }

  /** While an administrator stays, no count lets a bootstrap pass. */
  lemma {:induction false} AdminsStay(s0: System, events: seq<Event>, more: seq<Event>)
    requires Runs(s0, events + more) && Runs(s0, events) && NoAssignment(more)
    ensures AdminRows(Final(s0, events)) <= AdminRows(Final(s0, events + more))
    ensures AdminRows(Final(s0, events)) != {} ==>
              forall t | PastCount(Final(s0, events + more), t) :: PastCount(Final(s0, events), t)
  {
    if more == [] {
      assert events + more == events;
    } else {
      var init := more[..|more| - 1];
      assert (events + more)[..|events + more| - 1] == events + init;
      assert (events + more)[|events + more| - 1] == more[|more| - 1];
      AdminsStay(s0, events, init);
      StepKeepsAdmins(Final(s0, events + init), more[|more| - 1]);
    }
  }

  /**
   Whatever ran before, role assignments included: while no further assignment runs, administrators
   stay, a bootstrap that counts is refused, and one past its count had counted before.
   */
  lemma {:induction false} OnlyAssignmentReopensBootstrap(s0: System, events: seq<Event>, more: seq<Event>, e: Event)
    requires Runs(s0, events + more) && Runs(s0, events)
    requires AdminRows(Final(s0, events)) != {} && NoAssignment(more)
    requires (e.CountAdmins? || e.CreateAdmin?) && Possible(Final(s0, events + more), e)
    ensures AdminRows(Final(s0, events)) <= AdminRows(Final(s0, events + more))
    ensures e.CountAdmins? ==> e.tx !in Step(Final(s0, events + more), e).txs
    ensures e.CreateAdmin? ==> PastCount(Final(s0, events), e.tx)
  {
    AdminsStay(s0, events, more);
  }

  // ---------- with role assignments ----------

  /** At most one transaction is past its start, and the two roles differ. */
  ghost predicate OneLocked(s: System) {
    && (ADMIN in s.roles && USER in s.roles ==> s.roles[ADMIN] != s.roles[USER])
    && (forall t, o | t in s.txs && o in s.txs && !s.txs[t].Begun? && !s.txs[o].Begun? :: t == o)
  }

  lemma {:induction false} LockIsHeldOnce(s0: System, events: seq<Event>)
    requires Fresh(s0) && Runs(s0, events)
    ensures OneLocked(Final(s0, events))
  {
    if events != [] {
      LockIsHeldOnce(s0, events[..|events| - 1]);
    }
  }

  /** While one bootstrap is past its count, no other counts or creates. */
  lemma PastCountAlone(s: System, e: Event, t: nat)
    requires OneLocked(s) && Possible(s, e) && PastCount(s, t) && PastCount(Step(s, e), t)
    ensures !e.CountAdmins? && !e.CreateAdmin?
    ensures !e.Assign? ==> AdminRows(Step(s, e)) == AdminRows(s)
  {
  }

  /** The count `k` let transaction `t` pass, and nothing but a role assignment has changed its result since. */
  ghost predicate CountedAt(s0: System, events: seq<Event>, t: nat, k: nat)
    requires Runs(s0, events)
  {
    && k < |events| && events[k] == CountAdmins(t)
    && Runs(s0, events[..k]) && AdminRows(Final(s0, events[..k])) == {}
    && (forall m | k < m < |events| :: !events[m].CountAdmins? && !events[m].CreateAdmin?)
    && (NoAssignment(events[k..]) ==> AdminRows(Final(s0, events)) == {})
  }

  lemma CountedStays(s0: System, events: seq<Event>, t: nat, k: nat)
    requires Fresh(s0) && events != [] && Runs(s0, events) && PastCount(Final(s0, events), t)
    requires var init := events[..|events| - 1];
             PastCount(Final(s0, init), t) && CountedAt(s0, init, t, k)
    ensures CountedAt(s0, events, t, k)
  {
    var init, e := events[..|events| - 1], events[|events| - 1];
    LockIsHeldOnce(s0, init);
    PastCountAlone(Final(s0, init), e, t);
    assert events[..k] == init[..k];
    assert NoAssignment(events[k..]) ==> NoAssignment(init[k..]) && !e.Assign? by {
      assert forall m | 0 <= m < |init[k..]| :: init[k..][m] == events[k..][m];
      assert events[k..][|events[k..]| - 1] == e;
    }
  }

  /**
   In every run, role assignments included, a bootstrap about to create an administrator has counted
   none under the role's lock, and no other bootstrap has counted or created since.
   */
  lemma {:induction false} CreatorHadCounted(s0: System, events: seq<Event>, t: nat) returns (k: nat)
    requires Fresh(s0) && Runs(s0, events) && PastCount(Final(s0, events), t)
    ensures CountedAt(s0, events, t, k)
  {
    var init, e := events[..|events| - 1], events[|events| - 1];
    if PastCount(Final(s0, init), t) {
      k := CreatorHadCounted(s0, init, t);
      CountedStays(s0, events, t, k);
    } else {
      k := |events| - 1;
      assert e == CountAdmins(t) && events[..k] == init;
    }
  }

  const ROLES := map[ADMIN := 1, USER := 2]

  lemma Extend(s0: System, events: seq<Event>, e: Event) returns (more: seq<Event>)
    requires Runs(s0, events) && Possible(Final(s0, events), e)
    ensures Runs(s0, more) && more == events + [e] && Final(s0, more) == Step(Final(s0, events), e)
  {
    more := events + [e];
    assert more[..|more| - 1] == events;
  }

  lemma AdminIsAssigned(userRoles: UserRoles)
    ensures Assignment(ROLES, userRoles, 7, [ADMIN]).0 == Replaced(userRoles, 7, {1})
  {
    assert Trim(ADMIN) == ADMIN;
    assert TrimmedCodes([ADMIN]) == {ADMIN} by {
      assert [ADMIN][0] == ADMIN && Trim([ADMIN][0]) in TrimmedCodes([ADMIN]);
    }
    assert RoleIds(ROLES, {ADMIN}) == {1};
  }

  /** The rows of a bootstrap, by its answer. */
  lemma ResultRows(s: System, names: map<string, int>, name: string, password: string, id: int)
    requires ADMIN in s.roles
    ensures var (userRoles', _, answer) := BootstrapResult(s.roles, s.userRoles, names, name, password, id);
            && (answer == Assigned ==>
                  AdminRows(s) == {} && USER in s.roles &&
                  userRoles' == s.userRoles + {(id, s.roles[USER]), (id, s.roles[ADMIN])})
            && (answer == AdminExists ==> AdminRows(s) != {})
            && (answer != Assigned ==> userRoles' == s.userRoles)
  {
  }

  lemma LockFirst(s0: System) returns (events: seq<Event>)
    requires ADMIN in s0.roles && s0.txs == map[]
    ensures Runs(s0, events) && Final(s0, events) == s0.(txs := map[0 := Locked])
  {
    events := Extend(s0, [], Open(0));
    events := Extend(s0, events, LockRole(0));
  }

  /** The steps of a bootstrap that succeeds. */
  lemma CountAndCreate(s0: System, id: int) returns (events: seq<Event>)
    requires ADMIN in s0.roles && USER in s0.roles && s0.txs == map[] && AdminRows(s0) == {}
    ensures Runs(s0, events) && events != [] && events[|events| - 1] == CreateAdmin(0, id)
    ensures Final(s0, events) == s0.(userRoles := s0.userRoles + {(id, s0.roles[USER]), (id, s0.roles[ADMIN])})
  {
    events := LockFirst(s0);
    events := Extend(s0, events, CountAdmins(0));
    assert Final(s0, events) == s0.(txs := map[0 := Counted]);
    events := Extend(s0, events, CreateAdmin(0, id));
  }

  /** The steps of a bootstrap that is refused, by the count or otherwise. */
  lemma CountOrClose(s0: System) returns (events: seq<Event>)
    requires ADMIN in s0.roles && s0.txs == map[]
    ensures Runs(s0, events) && Final(s0, events) == s0 && events != []
    ensures AdminRows(s0) != {} ==> events[|events| - 1] == CountAdmins(0)
  {
    events := LockFirst(s0);
    events := Extend(s0, events, if AdminRows(s0) != {} then CountAdmins(0) else Close(0));
  }

  /** A bootstrap with nothing beside it is a run of the transaction's steps, as far as it gets. */
  lemma BootstrapAloneIsARun(s0: System, names: map<string, int>, name: string, password: string, id: int)
    returns (events: seq<Event>)
    requires ADMIN in s0.roles && s0.txs == map[]
    ensures var (userRoles', _, answer) := BootstrapResult(s0.roles, s0.userRoles, names, name, password, id);
            && Runs(s0, events) && Final(s0, events) == s0.(userRoles := userRoles') && events != []
            && (answer == Assigned ==> events[|events| - 1] == CreateAdmin(0, id))
            && (answer == AdminExists ==> events[|events| - 1] == CountAdmins(0))
  {
    ResultRows(s0, names, name, password, id);
    if BootstrapResult(s0.roles, s0.userRoles, names, name, password, id).2 == Assigned {
      events := CountAndCreate(s0, id);
    } else {
      events := CountOrClose(s0);
    }
  }

  /** A bootstrap of a fresh system has counted no administrator. */
  lemma CountFirst(s0: System) returns (events: seq<Event>)
    requires s0 == System(ROLES, {}, map[])
    ensures Runs(s0, events) && Final(s0, events) == s0.(txs := map[0 := Counted])
  {
    events := Extend(s0, [], Open(0));
    events := Extend(s0, events, LockRole(0));
    events := Extend(s0, events, CountAdmins(0));
  }

  /** Why `AtMostOneAdmin` excludes role assignments: one between the count and the creation makes a second. */
  lemma AssignmentAddsSecondAdmin() returns (s0: System, events: seq<Event>)
    ensures Fresh(s0) && AdminRows(s0) == {} && Runs(s0, events)
    ensures |AdminRows(Final(s0, events))| == 2
  {
    s0 := System(ROLES, {}, map[]);
    events := CountFirst(s0);
    AdminIsAssigned({});
    events := Extend(s0, events, Assign(7, [ADMIN]));
    assert Final(s0, events).userRoles == {(7, 1)};
    events := Extend(s0, events, CreateAdmin(0, 8));
    assert AdminRows(Final(s0, events)) == {(7, 1), (8, 1)};
  }
}
