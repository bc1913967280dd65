/** Roles and permissions: replacing a user's roles, and the two joins that answer for permissions. */
module Rbac {
  import opened SessionModel
  import opened Text

  datatype RbacAnswer =
    | Assigned
    | InvalidUser
    | RoleMissing
    | NotInitialized
    | AdminExists
    | NameTaken
    | NameTooShort
    | BadPassword
    | DuplicateRow

  type UserRoles = set<(int, int)>

  // ---------- codes ----------

  function TrimmedCodes(codes: seq<string>): set<string> {
    set i | 0 <= i < |codes| :: Trim(codes[i])
  }

  predicate Distinct(codes: seq<string>) {
    forall i, k | 0 <= i < k < |codes| :: codes[i] != codes[k]
  }

  // ---------- what an assignment means ----------

  /** All roles of the user gone, and one row for each of these. */
  function Replaced(userRoles: UserRoles, userId: int, roleIds: set<int>): UserRoles {
    (set r | r in userRoles && r.0 != userId) + (set i | i in roleIds :: (userId, i))
  }

  function RoleIds(roles: map<string, int>, codes: set<string>): set<int> {
    set c | c in codes && c in roles :: roles[c]
  }

  /** The table and the answer of one assignment. */
  function Assignment(roles: map<string, int>, userRoles: UserRoles, userId: int, codes: seq<string>)
    : (UserRoles, RbacAnswer)
  {
    if userId <= 0 then (userRoles, InvalidUser)
    else if codes == [] || "" in TrimmedCodes(codes) || !(TrimmedCodes(codes) <= roles.Keys) then
      (userRoles, RoleMissing)
    else (Replaced(userRoles, userId, RoleIds(roles, TrimmedCodes(codes))), Assigned)
  }

  class RbacDatabase {
    var roles: map<string, int>
    var userRoles: UserRoles
    var userNames: map<string, int>

    constructor (roles: map<string, int>)
      ensures this.roles == roles && userRoles == {} && userNames == map[]
    {
      this.roles, this.userRoles, this.userNames := roles, {}, map[];
    }

    /** Role ids are primary keys. */
    ghost predicate Valid()
      reads this
    {
      forall a, b | a in roles && b in roles && roles[a] == roles[b] :: a == b
    }

    /** The primary key refuses a second row. */
    method InsertUserRole(userId: int, roleId: int) returns (ok: bool)
      modifies `userRoles
      ensures ok <==> (userId, roleId) !in old(userRoles)
      ensures userRoles == old(userRoles) + {(userId, roleId)}
    {
      ok := (userId, roleId) !in userRoles;
      userRoles := userRoles + {(userId, roleId)};
    }

    method DeleteUserRoles(userId: int)
      modifies `userRoles
      ensures userRoles == set r | r in old(userRoles) && r.0 != userId
    {
      userRoles := set r | r in userRoles && r.0 != userId;
    }
  }

  class RbacRepository {
    constructor () {}

    method FindRoleByCode(db: RbacDatabase, code: string) returns (id: Option<int>)
      ensures id == Lookup(db.roles, code)
    {
      id := if code in db.roles then Some(db.roles[code]) else None;
    }

    method AssignRoleToUserByCode(db: RbacDatabase, userId: int, code: string) returns (answer: RbacAnswer)
      modifies db`userRoles
      ensures answer == if code in db.roles then Assigned else RoleMissing
      ensures db.userRoles == if code in db.roles then old(db.userRoles) + {(userId, db.roles[code])}
                              else old(db.userRoles)
    {
      var role := FindRoleByCode(db, code);
      if role.None? {
        return RoleMissing;
      }
      db.userRoles := db.userRoles + {(userId, role.value)};
      answer := Assigned;
    }

    /**
     Known and distinct codes replace the roles; an unknown one changes nothing; a repeated one is
     refused by the primary key.
     */
    method ReplaceUserRolesByCodes(db: RbacDatabase, userId: int, codes: seq<string>) returns (answer: RbacAnswer)
      requires db.Valid()
      modifies db`userRoles
      ensures answer == if !((set c | c in codes) <= db.roles.Keys) then RoleMissing
                        else if Distinct(codes) then Assigned else DuplicateRow
      ensures answer.RoleMissing? ==> db.userRoles == old(db.userRoles)
      ensures answer.Assigned? ==>
                db.userRoles == Replaced(old(db.userRoles), userId, RoleIds(db.roles, set c | c in codes))
      ensures forall r: (int, int) | r.0 != userId :: r in db.userRoles <==> r in old(db.userRoles)
    {
      var found: seq<int> := [];
      for i := 0 to |codes|
        invariant |found| == i && db.userRoles == old(db.userRoles)
        invariant forall k | 0 <= k < i :: codes[k] in db.roles && found[k] == db.roles[codes[k]]
      {
        var role := FindRoleByCode(db, codes[i]);
        if role.None? {
          assert codes[i] in set c | c in codes;
          return RoleMissing;
        }
        found := found + [role.value];
      }
      db.DeleteUserRoles(userId);
      ghost var others := db.userRoles;
      for i := 0 to |found|
        invariant db.userRoles == others + (set k | 0 <= k < i :: (userId, found[k]))
        invariant Distinct(codes[..i])
      {
        var ok := db.InsertUserRole(userId, found[i]);
        if !ok {
          var k :| 0 <= k < i && found[k] == found[i];
          assert codes[k] == codes[i];
          return DuplicateRow;
        }
      }
      assert codes[..|found|] == codes;
      forall r
        ensures r in db.userRoles <==> r in Replaced(old(db.userRoles), userId, RoleIds(db.roles, set c | c in codes))
      {
        if r in (set k | 0 <= k < |found| :: (userId, found[k])) {
          var k :| 0 <= k < |found| && r == (userId, found[k]);
          assert codes[k] in codes;
        }
      }
      answer := Assigned;
    }
  }

  class RbacService {
    const db: RbacDatabase
    const repo: RbacRepository

    constructor (db: RbacDatabase)
      ensures this.db == db
    {
      this.db := db;
      this.repo := new RbacRepository();
    }

    method AssignRolesToUser(userId: int, codes: seq<string>) returns (answer: RbacAnswer)
      requires db.Valid()
      modifies db
      ensures db.Valid() && db.roles == old(db.roles) && db.userNames == old(db.userNames)
      ensures (db.userRoles, answer) == Assignment(db.roles, old(db.userRoles), userId, codes)
    {
      if userId <= 0 {
        return InvalidUser;
      }
      if |codes| == 0 {
        return RoleMissing;
      }
      var normalized: seq<string> := [];
      var seen: set<string> := {};
      for i := 0 to |codes|
        invariant seen == TrimmedCodes(codes[..i]) && seen == (set c | c in normalized)
        invariant Distinct(normalized)
        invariant "" !in seen
      {
        var code := Trim(codes[i]);
        assert TrimmedCodes(codes[..i + 1]) == TrimmedCodes(codes[..i]) + {code};
        if code == "" {
          assert codes[..i + 1] <= codes && "" in TrimmedCodes(codes);
          return RoleMissing;
        }
        if code !in seen {
          seen := seen + {code};
          normalized := normalized + [code];
        }
      }
      assert codes[..|codes|] == codes;
      var savepoint := db.userRoles;
      answer := repo.ReplaceUserRolesByCodes(db, userId, normalized);
      if !answer.Assigned? {
        db.userRoles := savepoint;
      }
    }
  }

  // ---------- what an assignment guarantees ----------

  function CodesOf(roles: map<string, int>, userRoles: UserRoles, userId: int): set<string> {
    set c | c in roles && (userId, roles[c]) in userRoles
  }

  /** The user has exactly the trimmed codes, everyone else what they had, and a repeat changes nothing. */
  lemma AssignmentIsExact(roles: map<string, int>, userRoles: UserRoles, userId: int, codes: seq<string>, other: int)
    requires forall a, b | a in roles && b in roles && roles[a] == roles[b] :: a == b
    requires Assignment(roles, userRoles, userId, codes).1.Assigned?
    ensures var after := Assignment(roles, userRoles, userId, codes).0;
            && CodesOf(roles, after, userId) == TrimmedCodes(codes)
            && (other != userId ==> CodesOf(roles, after, other) == CodesOf(roles, userRoles, other))
            && Assignment(roles, after, userId, codes) == (after, Assigned)
  {
    var ids := RoleIds(roles, TrimmedCodes(codes));
    var after := Replaced(userRoles, userId, ids);
    forall c | c in roles
      ensures (userId, roles[c]) in after <==> c in TrimmedCodes(codes)
    {
      if c in TrimmedCodes(codes) {
        assert roles[c] in ids;
        assert (userId, roles[c]) in (set i | i in ids :: (userId, i));
      }
      if (userId, roles[c]) in after {
        assert roles[c] in ids;
        var d :| d in TrimmedCodes(codes) && d in roles && roles[d] == roles[c];
        assert d == c;
      }
    }
    assert CodesOf(roles, after, userId) == TrimmedCodes(codes);
    forall c | c in roles && other != userId
      ensures (other, roles[c]) in after <==> (other, roles[c]) in userRoles
    {
    }
    assert Replaced(after, userId, ids) == after;
  }

  /** Exactly non-empty lists of known codes of a positive user are assigned; whatever is refused changes nothing. */
  lemma AssignmentSucceedsExactly(roles: map<string, int>, userRoles: UserRoles, userId: int, codes: seq<string>)
    ensures var (after, answer) := Assignment(roles, userRoles, userId, codes);
            && (answer == Assigned <==>
                && userId > 0 && codes != []
                && forall i | 0 <= i < |codes| :: Trim(codes[i]) != "" && Trim(codes[i]) in roles)
            && (answer != Assigned ==> after == userRoles && answer == if userId <= 0 then InvalidUser else RoleMissing)
  {
    forall i | 0 <= i < |codes|
      ensures Trim(codes[i]) in TrimmedCodes(codes)
    {
    }
  }

  /** Afterwards the user's rows are those of the trimmed codes, and all other rows are the old ones. */
  lemma AssignmentWrites(roles: map<string, int>, userRoles: UserRoles, userId: int, codes: seq<string>,
                         row: (int, int))
    requires Assignment(roles, userRoles, userId, codes).1.Assigned?
    ensures row in Assignment(roles, userRoles, userId, codes).0 <==>
            if row.0 != userId then row in userRoles
            else exists i :: 0 <= i < |codes| && Trim(codes[i]) in roles && roles[Trim(codes[i])] == row.1
  {
    var ids := RoleIds(roles, TrimmedCodes(codes));
    if row.0 == userId {
      if row.1 in ids {
        var c :| c in TrimmedCodes(codes) && c in roles && roles[c] == row.1;
        var i :| 0 <= i < |codes| && c == Trim(codes[i]);
        assert roles[Trim(codes[i])] == row.1;
      }
      if i :| 0 <= i < |codes| && Trim(codes[i]) in roles && roles[Trim(codes[i])] == row.1 {
        assert Trim(codes[i]) in TrimmedCodes(codes);
        assert row.1 in ids;
      }
      var id := row.1;
      assert row == (userId, id);
      assert row in (set i | i in ids :: (userId, i)) <==> id in ids;
    }
  }

  // ---------- permissions ----------

  datatype Grants = Grants(userRoles: UserRoles, rolePermissions: set<(int, int)>, permissions: map<int, string>)

  /** `COUNT(*)` over user_roles, role_permissions and permissions joined, for one user and one code. */
  function CountedRows(g: Grants, userId: int, code: string): set<((int, int), (int, int))> {
    set ur, rp | ur in g.userRoles && rp in g.rolePermissions && ur.0 == userId && rp.0 == ur.1 &&
                 rp.1 in g.permissions && g.permissions[rp.1] == code :: (ur, rp)
  }

  function UserHasPermission(g: Grants, userId: int, code: string): bool {
    |CountedRows(g, userId, code)| > 0
  }

  // The list joins one table after another.

  function RolesOf(g: Grants, userId: int): set<int> {
    set ur | ur in g.userRoles && ur.0 == userId :: ur.1
  }

  function PermissionsOf(g: Grants, roleIds: set<int>): set<int> {
    set rp | rp in g.rolePermissions && rp.0 in roleIds :: rp.1
  }

  /** The codes of `SELECT DISTINCT p.code`. */
  function PermissionCodes(g: Grants, userId: int): set<string> {
    set p | p in PermissionsOf(g, RolesOf(g, userId)) && p in g.permissions :: g.permissions[p]
  }

  predicate Less(a: string, b: string) {
    if a == "" then b != ""
    else b != "" && (a[0] < b[0] || (a[0] == b[0] && Less(a[1..], b[1..])))
  }

  predicate Ascending(codes: seq<string>) {
    forall i, k | 0 <= i < k < |codes| :: Less(codes[i], codes[k])
  }

  lemma {:induction false} LessIsTransitive(a: string, b: string, c: string)
    requires Less(a, b) && Less(b, c)
    ensures Less(a, c)
  {
    if a != "" && a[0] == b[0] && b[0] == c[0] {
      LessIsTransitive(a[1..], b[1..], c[1..]);
    }
  }

  lemma {:induction false} LessIsTotal(a: string, b: string)
    ensures Less(a, b) || Less(b, a) || a == b
    ensures !(Less(a, b) && Less(b, a)) && (a == b ==> !Less(a, b))
  {
    if a != "" && b != "" && a[0] == b[0] {
      LessIsTotal(a[1..], b[1..]);
      if a[1..] == b[1..] {
        assert a == [a[0]] + a[1..] && b == [b[0]] + b[1..];
      }
    }
  }

  /** The order of a dictionary: a proper prefix comes first, otherwise the first different character decides. */
  lemma {:induction false} LessIsDictionaryOrder(a: string, b: string)
    ensures Less(a, b) <==>
            exists n :: 0 <= n <= |a| && n < |b| && a[..n] == b[..n] && (n == |a| || a[n] < b[n])
  {
    if a == "" || b == "" || a[0] != b[0] {
      if Less(a, b) {
        assert a[..0] == b[..0];
      }
    } else {
      LessIsDictionaryOrder(a[1..], b[1..]);
      var c, d := a[1..], b[1..];
      if m :| 0 <= m <= |c| && m < |d| && c[..m] == d[..m] && (m == |c| || c[m] < d[m]) {
        assert a[..m + 1] == [a[0]] + c[..m] && b[..m + 1] == [b[0]] + d[..m];
      }
      if n :| 0 <= n <= |a| && n < |b| && a[..n] == b[..n] && (n == |a| || a[n] < b[n]) {
        assert n > 0;
        assert c[..n - 1] == a[..n][1..] && d[..n - 1] == b[..n][1..];
      }
    }
  }

  function Elements(codes: seq<string>): set<string> {
    set c | c in codes
  }

  /** The count of one join is positive exactly when the other join lists the code. */
  lemma JoinsAgree(g: Grants, userId: int, code: string)
    ensures UserHasPermission(g, userId, code) <==> code in PermissionCodes(g, userId)
  {
    var rows := CountedRows(g, userId, code);
    if |rows| > 0 {
      var row :| row in rows;
      var ur, rp := row.0, row.1;
      var p := rp.1;
      assert ur.1 in RolesOf(g, userId);
      assert p in PermissionsOf(g, RolesOf(g, userId)) && p in g.permissions && g.permissions[p] == code;
    }
    if code in PermissionCodes(g, userId) {
      var p :| p in PermissionsOf(g, RolesOf(g, userId)) && p in g.permissions && g.permissions[p] == code;
      var rp :| rp in g.rolePermissions && rp.0 in RolesOf(g, userId) && rp.1 == p;
      var ur :| ur in g.userRoles && ur.0 == userId && ur.1 == rp.0;
      assert (ur, rp) in rows;
      assert rows != {};
    }
  }

  method InsertSorted(codes: seq<string>, code: string) returns (r: seq<string>)
    requires Ascending(codes) && code !in codes
    ensures Ascending(r)
    ensures Elements(r) == Elements(codes) + {code}
  {
    var i := 0;
    while i < |codes| && Less(codes[i], code)
      invariant i <= |codes|
      invariant forall k | 0 <= k < i :: Less(codes[k], code)
    {
      i := i + 1;
    }
    r := codes[..i] + [code] + codes[i..];
    if i < |codes| {
      LessIsTotal(codes[i], code);
      forall k | i < k < |codes|
        ensures Less(code, codes[k])
      {
        LessIsTransitive(code, codes[i], codes[k]);
      }
    }
  }

  /** A user has a permission exactly if some role of the user grants it. */
  lemma PermissionIsGranted(g: Grants, userId: int, code: string)
    ensures UserHasPermission(g, userId, code) <==>
            exists r: int, p: int ::
              && (userId, r) in g.userRoles && (r, p) in g.rolePermissions
              && p in g.permissions && g.permissions[p] == code
  {
    var rows := CountedRows(g, userId, code);
    if |rows| > 0 {
      var row :| row in rows;
      var r, p := row.0.1, row.1.1;
      assert row.0 == (userId, r) && row.1 == (r, p);
    }
    if r: int, p: int :|
      (userId, r) in g.userRoles && (r, p) in g.rolePermissions && p in g.permissions && g.permissions[p] == code
    {
      var ur, rp := (userId, r), (r, p);
      assert (ur, rp) in rows;
      assert rows != {};
    }
  }

  /** `SELECT DISTINCT p.code ... ORDER BY p.code`. */
  method ListUserPermissionCodes(g: Grants, userId: int) returns (codes: seq<string>)
    ensures Ascending(codes)
    ensures forall c :: c in codes <==> UserHasPermission(g, userId, c)
  {
    codes := [];
    var rest := PermissionCodes(g, userId);
    while rest != {}
      invariant Ascending(codes) && rest !! Elements(codes)
      invariant Elements(codes) + rest == PermissionCodes(g, userId)
      decreases rest
    {
      var code :| code in rest;
      assert code !in Elements(codes);
      codes := InsertSorted(codes, code);
      rest := rest - {code};
    }
    forall c
      ensures c in codes <==> UserHasPermission(g, userId, c)
    {
      JoinsAgree(g, userId, c);
      assert c in codes <==> c in Elements(codes);
    }
  }

  lemma FirstIsLeast(a: seq<string>, b: seq<string>)
    requires Ascending(a) && a != [] && b != [] && forall c :: c in a <==> c in b
    ensures a[0] == b[0] || Less(a[0], b[0])
  {
    assert b[0] in a;
  }

  /** The list is determined: two ascending lists with the same codes are equal. */
  lemma {:induction false} AscendingIsUnique(a: seq<string>, b: seq<string>)
    requires Ascending(a) && Ascending(b) && forall c :: c in a <==> c in b
    ensures a == b
  {
    assert (a != [] ==> a[0] in a) && (b != [] ==> b[0] in b);
    if a != [] && b != [] {
      FirstIsLeast(a, b);
      FirstIsLeast(b, a);
      LessIsTotal(a[0], b[0]);
      assert a[0] == b[0];
      LessIsTotal(a[0], a[0]);
      assert a[0] !in a[1..] && b[0] !in b[1..];
      assert a == [a[0]] + a[1..] && b == [b[0]] + b[1..];
      forall c
        ensures c in a[1..] <==> c in b[1..]
      {
        assert c in a <==> c == a[0] || c in a[1..];
        assert c in b <==> c == b[0] || c in b[1..];
      }
      AscendingIsUnique(a[1..], b[1..]);
    }
  }
}
