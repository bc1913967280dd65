/** What holds of a token family over whole runs. */
module FamilyTheorems {
  import opened SessionModel
  import opened FamilyProtocol

  // ---------- the shape of a family ----------

  /** Every row of every reachable table lies on the one path that starts at its family's root. */
  lemma FamilyIsOnePath(iss: Issuer, calls: seq<Call>, j: string)
    requires iss.WellFormed() && Feasible(iss, calls)
    requires j in After(calls).tokens
    ensures var tokens := After(calls).tokens;
            exists p :: IsChain(tokens, tokens[j].familyId, p) && j in p
  {
    ReachableInvariant(iss, calls);
    var tokens := After(calls).tokens;
    assert HasChain(tokens, tokens[j].familyId);
    var p :| IsChain(tokens, tokens[j].familyId, p);
    assert j in p;
  }

  /** One user and one version along a path, and an expiry that never moves back. */
  lemma {:induction false} PathKeepsOwner(iss: Issuer, calls: seq<Call>, f: string, p: seq<string>, i: nat, k: nat)
    requires iss.WellFormed() && Feasible(iss, calls)
    requires IsChain(After(calls).tokens, f, p)
    requires i <= k < |p|
    ensures var tokens := After(calls).tokens;
            && p[i] in tokens && p[k] in tokens && p[i] in iss.claims && p[k] in iss.claims
            && tokens[p[i]].userId == tokens[p[k]].userId
            && iss.claims[p[i]].authVersion == iss.claims[p[k]].authVersion
            && tokens[p[i]].expiresAt <= tokens[p[k]].expiresAt
    decreases k - i
  {
    ReachableInvariant(iss, calls);
    var db := After(calls);
    assert p[i] in p && p[k] in p;
    assert GoodRow(iss, db, p[i]) && GoodRow(iss, db, p[k]);
    if i < k {
      PathKeepsOwner(iss, calls, f, p, i + 1, k);
      assert Linked(db.tokens, p, i);
      assert iss.Succeeds(p[i], p[i + 1]);
      assert p[i + 1] in p;
      assert GoodRow(iss, db, p[i + 1]);
    }
  }

  /** A family never has two live rows. */
  lemma AtMostOneLive(iss: Issuer, calls: seq<Call>, j: string, k: string)
    requires iss.WellFormed() && Feasible(iss, calls)
    requires var tokens := After(calls).tokens;
             j in tokens && k in tokens && tokens[j].familyId == tokens[k].familyId &&
             tokens[j].Live() && tokens[k].Live()
    ensures j == k
  {
    ReachableInvariant(iss, calls);
    var db := After(calls);
    var f := db.tokens[j].familyId;
    assert GoodRow(iss, db, j) && GoodRow(iss, db, k) && HasChain(db.tokens, f);
    var p :| IsChain(db.tokens, f, p);
    UnrotatedIsTail(db.tokens, f, p, j);
    UnrotatedIsTail(db.tokens, f, p, k);
  }

  /** What a rotation of a live row does. */
  lemma LiveRotation(iss: Issuer, db: Database, c: Call)
    requires c.RotateToken? && iss.Sanctions(c) && !BadRotation(c)
    requires c.oldJti in db.tokens && GoodRow(iss, db, c.oldJti) && db.tokens[c.oldJti].Live()
    requires db.tokens[c.oldJti].familyId != "" && Insertable(db.tokens, c.nextJti, c.nextHash)
    ensures Apply(db, c).1.Ok? <==>
            UserAdmits(Lookup(db.users, c.userId), c.authVersion) && c.clock.check < iss.ExpiresAt(c.oldJti)
    ensures Apply(db, c).1.Ok? ==>
              Apply(db, c).0.tokens ==
              RevokedByJti(
                db.tokens[c.nextJti := NewRow(c.userId, db.tokens[c.oldJti].familyId, c.nextHash, c.nextExpiresAt)],
                c.oldJti, c.clock.write, Rotated, Some(c.nextJti))
  {
  }

  /** In a reachable state a rotation succeeds exactly on an unexpired live tail of an admitted user. */
  lemma RotationSucceedsExactlyOnLiveTail(iss: Issuer, calls: seq<Call>, c: Call, p: seq<string>)
    requires iss.WellFormed() && Feasible(iss, calls)
    requires c.RotateToken? && iss.Sanctions(c) && !BadRotation(c)
    requires c.oldJti in After(calls).tokens
    requires IsChain(After(calls).tokens, After(calls).tokens[c.oldJti].familyId, p)
    requires Insertable(After(calls).tokens, c.nextJti, c.nextHash)
    ensures var db := After(calls);
            Apply(db, c).1.Ok? <==>
            && UserAdmits(Lookup(db.users, c.userId), c.authVersion)
            && p[|p| - 1] == c.oldJti && db.tokens[c.oldJti].Live()
            && c.clock.check < iss.ExpiresAt(c.oldJti)
    ensures Apply(After(calls), c).1.Ok? ==>
              IsChain(Apply(After(calls), c).0.tokens, After(calls).tokens[c.oldJti].familyId, p + [c.nextJti])
  {
    ReachableInvariant(iss, calls);
    var db := After(calls);
    assert GoodRow(iss, db, c.oldJti);
    var f := db.tokens[c.oldJti].familyId;
    if db.tokens[c.oldJti].Live() {
      LiveRotation(iss, db, c);
      UnrotatedIsTail(db.tokens, f, p, c.oldJti);
      RotationExtendsChain(db.tokens, f, p, c.oldJti, c.nextJti,
                           NewRow(c.userId, f, c.nextHash, c.nextExpiresAt), c.clock.write);
    }
  }

  // ---------- revocation is final ----------

  lemma AfterAppend(calls: seq<Call>, more: seq<Call>)
    requires more != []
    ensures (calls + more)[..|calls + more| - 1] == calls + more[..|more| - 1]
    ensures After(calls + more) == Apply(After(calls + more[..|more| - 1]), more[|more| - 1]).0
  {
    assert (calls + more)[..|calls + more| - 1] == calls + more[..|more| - 1];
  }

  /** Rows stay, their identity never changes, and a revoked row never changes at all. */
  ghost predicate Preserved(db: Database, db': Database) {
    && (forall j | j in db.tokens ::
          j in db'.tokens && db.tokens[j].SameIdentity(db'.tokens[j]) &&
          (!db.tokens[j].Live() ==> db'.tokens[j] == db.tokens[j]))
    && (forall u | u in db.users :: u in db'.users && db.users[u].authVersion <= db'.users[u].authVersion)
  }

  lemma CallPreserves(db: Database, c: Call)
    ensures Preserved(db, Apply(db, c).0)
  {
  }

  lemma {:induction false} RevocationIsFinal(calls: seq<Call>, more: seq<Call>)
    ensures Preserved(After(calls), After(calls + more))
  {
    if more == [] {
      assert calls + more == calls;
    } else {
      var init := more[..|more| - 1];
      RevocationIsFinal(calls, init);
      AfterAppend(calls, more);
      CallPreserves(After(calls + init), more[|more| - 1]);
    }
  }

  lemma {:induction false} FeasiblePrefix(iss: Issuer, calls: seq<Call>, more: seq<Call>)
    requires Feasible(iss, calls + more)
    ensures Feasible(iss, calls)
  {
    if more == [] {
      assert calls + more == calls;
    } else {
      AfterAppend(calls, more);
      FeasiblePrefix(iss, calls, more[..|more| - 1]);
    }
  }

  /** The exact effect of a successful rotation. */
  lemma IssueEffect(db: Database, c: Call)
    requires c.RotateToken? && Apply(db, c).1.Ok?
    ensures c.oldJti in db.tokens && c.nextJti !in db.tokens && db.tokens[c.oldJti].Live()
    ensures var row := db.tokens[c.oldJti];
            var family := if row.familyId == "" then c.oldJti else row.familyId;
            Apply(db, c).0.tokens ==
            db.tokens[c.nextJti := NewRow(c.userId, family, c.nextHash, c.nextExpiresAt)]
            [c.oldJti := row.Revoked(c.clock.write, Rotated).(replacedByJti := Some(c.nextJti))]
  {
  }

  /** No row of the family is live. */
  ghost predicate FamilyDead(db: Database, f: string) {
    f in db.tokens && forall j | j in db.tokens && db.tokens[j].familyId == f :: !db.tokens[j].Live()
  }

  lemma CallKeepsFamilyDead(iss: Issuer, db: Database, c: Call, f: string)
    requires iss.WellFormed() && Invariant(iss, db) && iss.Permits(db, c) && FamilyDead(db, f)
    ensures FamilyDead(Apply(db, c).0, f)
  {
    CallPreserves(db, c);
    var db' := Apply(db, c).0;
    forall k | k in db'.tokens && k !in db.tokens
      ensures db'.tokens[k].familyId != f
    {
      if c.RotateToken? {
        assert GoodRow(iss, db, c.oldJti);
        IssueEffect(db, c);
      }
    }
  }

  lemma {:induction false} DeadFamilyStaysDead(iss: Issuer, calls: seq<Call>, more: seq<Call>, f: string)
    requires iss.WellFormed() && Feasible(iss, calls + more)
    requires FamilyDead(After(calls), f)
    ensures FamilyDead(After(calls + more), f)
  {
    if more == [] {
      assert calls + more == calls;
    } else {
      var init := more[..|more| - 1];
      AfterAppend(calls, more);
      DeadFamilyStaysDead(iss, calls, init, f);
      ReachableInvariant(iss, calls + init);
      CallKeepsFamilyDead(iss, After(calls + init), more[|more| - 1], f);
    }
  }

  /** A replay is answered only after every row of the family is revoked, and none is live ever after. */
  lemma ReplayKillsFamily(iss: Issuer, calls: seq<Call>, c: Call, more: seq<Call>)
    requires iss.WellFormed() && Feasible(iss, calls + [c] + more)
    requires c.RotateToken? && Apply(After(calls), c).1 == TokenReplay
    ensures c.oldJti in After(calls).tokens
    ensures FamilyDead(After(calls + [c] + more), After(calls).tokens[c.oldJti].familyId)
  {
    FeasiblePrefix(iss, calls + [c], more);
    FeasiblePrefix(iss, calls, [c]);
    ReachableInvariant(iss, calls);
    AfterAppend(calls, [c]);
    assert calls + [c][..|[c]| - 1] == calls;
    var db := After(calls);
    assert GoodRow(iss, db, c.oldJti);
    var f := db.tokens[c.oldJti].familyId;
    forall j | j in db.tokens && db.tokens[j].familyId == f
      ensures db.tokens[j].userId == c.userId
    {
      assert GoodRow(iss, db, j);
    }
    assert FamilyDead(After(calls + [c]), f);
    DeadFamilyStaysDead(iss, calls + [c], more, f);
  }

  /** The same, read off the final tables. */
  lemma ReplayedFamilyEndsDead(iss: Issuer, calls: seq<Call>, c: Call, more: seq<Call>)
    requires iss.WellFormed() && Feasible(iss, calls + [c] + more)
    requires c.RotateToken? && Apply(After(calls), c).1 == TokenReplay
    ensures var db := After(calls + [c] + more);
            c.oldJti in db.tokens && FamilyDead(db, db.tokens[c.oldJti].familyId)
  {
    ReplayKillsFamily(iss, calls, c, more);
    assert calls + [c] + more == calls + ([c] + more);
    RevocationIsFinal(calls, [c] + more);
  }

  /**
   Once rotated, a token answers every later well-formed presentation of an admitted user with
   the replay error, whatever the clock reads, and each such answer leaves the family dead.
   */
  lemma RotatedTokenAlwaysReplays(iss: Issuer, calls: seq<Call>, more: seq<Call>, j: string, c: Call)
    requires iss.WellFormed() && Feasible(iss, calls + more)
    requires j in After(calls).tokens && After(calls).tokens[j].revokedReason == Some(Rotated)
    requires c.RotateToken? && iss.Sanctions(c) && c.oldJti == j && !BadRotation(c)
    requires UserAdmits(Lookup(After(calls + more).users, c.userId), c.authVersion)
    ensures Apply(After(calls + more), c).1 == TokenReplay
    ensures FamilyDead(Apply(After(calls + more), c).0, After(calls).tokens[j].familyId)
  {
    FeasiblePrefix(iss, calls, more);
    ReachableInvariant(iss, calls);
    RevocationIsFinal(calls, more);
    assert GoodRow(iss, After(calls), j);
    ReachableInvariant(iss, calls + more);
    assert GoodRow(iss, After(calls + more), j);
    forall k | k in After(calls + more).tokens &&
               After(calls + more).tokens[k].familyId == After(calls).tokens[j].familyId
      ensures After(calls + more).tokens[k].userId == c.userId
    {
      assert GoodRow(iss, After(calls + more), k);
    }
  }

  /** After one successful rotation of a JTI no later rotation of it succeeds. */
  lemma SecondRotationFails(calls: seq<Call>, c: Call, more: seq<Call>, again: Call)
    requires c.RotateToken? && Apply(After(calls), c).1.Ok?
    requires again.RotateToken? && again.oldJti == c.oldJti
    ensures !Apply(After(calls + [c] + more), again).1.Ok?
  {
    AfterAppend(calls, [c]);
    assert calls + [c][..|[c]| - 1] == calls;
    IssueEffect(After(calls), c);
    RevocationIsFinal(calls + [c], more);
    assert !After(calls + [c] + more).tokens[c.oldJti].Live();
  }

  /**
   A logout revokes the row it names, if live, and no other: a token rotated before leaves its
   successor as it was, and a token revoked by the logout never rotates again nor kills its family.
   */
  lemma LogoutEndsOneToken(calls: seq<Call>, c: Call, more: seq<Call>, again: Call)
    requires c.RevokeToken? && Apply(After(calls), c).1.Ok?
    requires again.RotateToken? && again.oldJti == c.jti
    ensures var db, db' := After(calls), After(calls + [c]);
            && db'.users == db.users && db'.tokens.Keys == db.tokens.Keys
            && (forall j | j in db.tokens && j != c.jti :: db'.tokens[j] == db.tokens[j])
            && c.jti in db.tokens
            && (!db.tokens[c.jti].Live() ==> db' == db)
            && (db.tokens[c.jti].Live() ==>
                  db'.tokens[c.jti].revokedReason == Some(Logout) &&
                  Apply(After(calls + [c] + more), again).1 in {TokenRevoked, TokenInvalid})
    ensures !Apply(After(calls + [c] + more), again).1.Ok?
  {
    AfterAppend(calls, [c]);
    assert calls + [c][..|[c]| - 1] == calls;
    RevocationIsFinal(calls + [c], more);
  }

  // ---------- the version cut-off ----------

  /** A JWT of an older version is refused by every later rotation and validation, which change nothing. */
  lemma OldVersionIsRefused(calls: seq<Call>, more: seq<Call>, u: int, version: int, c: Call, jti: string,
                            revoked: bool)
    requires u in After(calls).users && version < After(calls).users[u].authVersion
    requires c.RotateToken? && c.userId == u && c.authVersion == version
    ensures Apply(After(calls + more), c) == (After(calls + more), TokenInvalid)
    ensures ValidateAccess(u, version, jti, Lookup(After(calls + more).users, u), revoked) == SessionInvalid
  {
    RevocationIsFinal(calls, more);
  }

  /**
   A password change leaves no live row of the user, and every refresh or access token signed for
   the version it replaces stays refused, even one whose row a login inserts later.
   */
  lemma PasswordChangeCutsOff(iss: Issuer, calls: seq<Call>, change: Call, more: seq<Call>, j: string, c: Call)
    requires iss.WellFormed() && Feasible(iss, calls + [change] + more)
    requires change.ChangePassword? && Apply(After(calls), change).1.Ok?
    requires j in iss.claims && iss.claims[j].userId == change.userId
    requires change.userId in After(calls).users
    requires iss.claims[j].authVersion <= After(calls).users[change.userId].authVersion
    requires c.RotateToken? && iss.Sanctions(c) && c.oldJti == j
    ensures change.userId in After(calls + [change]).users
    ensures forall k | k in After(calls + [change]).tokens &&
                       After(calls + [change]).tokens[k].userId == change.userId ::
              !After(calls + [change]).tokens[k].Live()
    ensures After(calls + [change]).users[change.userId].passwordHash.password == change.newPassword
    ensures Apply(After(calls + [change] + more), c) == (After(calls + [change] + more), TokenInvalid)
    ensures forall version: int, jti, revoked | version <= After(calls).users[change.userId].authVersion ::
              ValidateAccess(change.userId, version, jti, Lookup(After(calls + [change] + more).users, change.userId),
                             revoked)
              == SessionInvalid
  {
    AfterAppend(calls, [change]);
    assert calls + [change][..|[change]| - 1] == calls;
    OldVersionIsRefused(calls + [change], more, change.userId, iss.claims[j].authVersion, c, "", false);
    RevocationIsFinal(calls + [change], more);
  }

  predicate IsDisabled(db: Database, u: int) {
    u in db.users && db.users[u].status == Disabled
  }

  lemma CallKeepsDisabled(db: Database, c: Call, u: int)
    requires IsDisabled(db, u)
    ensures IsDisabled(Apply(db, c).0, u)
  {
  }

  /** A disabled user's tokens, of whatever version, are refused from then on. */
  lemma {:induction false} DisabledUserIsRefused(calls: seq<Call>, more: seq<Call>, u: int, c: Call, jti: string,
                                                 revoked: bool)
    requires IsDisabled(After(calls), u)
    requires c.RotateToken? && c.userId == u
    ensures IsDisabled(After(calls + more), u)
    ensures Apply(After(calls + more), c) == (After(calls + more), TokenInvalid)
    ensures ValidateAccess(u, c.authVersion, jti, Lookup(After(calls + more).users, u), revoked) == SessionInvalid
  {
    if more == [] {
      assert calls + more == calls;
    } else {
      DisabledUserIsRefused(calls, more[..|more| - 1], u, c, jti, revoked);
      AfterAppend(calls, more);
      CallKeepsDisabled(After(calls + more[..|more| - 1]), more[|more| - 1], u);
    }
  }

  // ---------- conservation ----------

  function One(b: bool): nat { if b then 1 else 0 }

  /** Logins stored in a run. */
  function Logins(calls: seq<Call>): nat {
    if calls == [] then 0
    else Logins(calls[..|calls| - 1]) + One(calls[|calls| - 1].StoreToken? && AnswerTo(calls).Ok?)
  }

  /** Successful rotations in a run. */
  function Rotations(calls: seq<Call>): nat {
    if calls == [] then 0
    else Rotations(calls[..|calls| - 1]) + One(calls[|calls| - 1].RotateToken? && AnswerTo(calls).Ok?)
  }

  /** Successful rotations of one JTI. */
  function RotationsOf(calls: seq<Call>, j: string): nat {
    if calls == [] then 0
    else
      RotationsOf(calls[..|calls| - 1], j) +
      One(calls[|calls| - 1].RotateToken? && calls[|calls| - 1].oldJti == j && AnswerTo(calls).Ok?)
  }

  predicate RotatesIn(db: Database, c: Call, f: string) {
    c.RotateToken? && Apply(db, c).1.Ok? && c.oldJti in db.tokens && db.tokens[c.oldJti].familyId == f
  }

  /** Successful rotations of tokens of one family. */
  function RotationsIn(calls: seq<Call>, f: string): nat {
    if calls == [] then 0
    else
      var init := calls[..|calls| - 1];
      RotationsIn(init, f) + One(RotatesIn(After(init), calls[|calls| - 1], f))
  }

  lemma QuietCallKeepsKeys(db: Database, c: Call)
    requires !Inserts(db, c)
    ensures Apply(db, c).0.tokens.Keys == db.tokens.Keys
  {
  }

  /** The keys after a call that adds a row. */
  lemma InsertAddsKey(db: Database, c: Call, k: string)
    requires Inserts(db, c) && k == if c.StoreToken? then c.jti else c.nextJti
    ensures k !in db.tokens && Apply(db, c).0.tokens.Keys == db.tokens.Keys + {k}
  {
    if c.RotateToken? {
      IssueEffect(db, c);
    }
  }

  lemma OneMoreKey(tokens: Tokens, tokens': Tokens, k: string)
    requires k !in tokens && tokens'.Keys == tokens.Keys + {k}
    ensures |tokens'| == |tokens| + 1
  {
    assert |tokens'.Keys| == |tokens'| && |tokens.Keys| == |tokens|;
  }

  lemma SameKeys(tokens: Tokens, tokens': Tokens)
    requires tokens'.Keys == tokens.Keys
    ensures |tokens'| == |tokens|
  {
    assert |tokens'.Keys| == |tokens'| && |tokens.Keys| == |tokens|;
  }

  lemma RowsAfterCall(db: Database, c: Call)
    ensures |Apply(db, c).0.tokens| == |db.tokens| + One(Inserts(db, c))
  {
    if Inserts(db, c) {
      var k := if c.StoreToken? then c.jti else c.nextJti;
      InsertAddsKey(db, c, k);
      OneMoreKey(db.tokens, Apply(db, c).0.tokens, k);
    } else {
      QuietCallKeepsKeys(db, c);
      SameKeys(db.tokens, Apply(db, c).0.tokens);
    }
  }

  /** Rows of the table: one for each login stored and one for each successful rotation. */
  lemma {:induction false} RowsAreConserved(calls: seq<Call>)
    ensures |After(calls).tokens| == Logins(calls) + Rotations(calls)
  {
    if calls != [] {
      RowsAreConserved(calls[..|calls| - 1]);
      RowsAfterCall(After(calls[..|calls| - 1]), calls[|calls| - 1]);
    }
  }

  predicate IsRotated(tokens: Tokens, j: string) {
    j in tokens && tokens[j].revokedReason == Some(Rotated)
  }

  lemma RotatedAfterCall(db: Database, c: Call, j: string)
    requires j in db.tokens && db.tokens[j].Live() ==>
               db.tokens[j].revokedReason.None? && db.tokens[j].replacedByJti.None?
    ensures var rotates := c.RotateToken? && c.oldJti == j && Apply(db, c).1.Ok?;
            (rotates ==> !IsRotated(db.tokens, j)) &&
            (IsRotated(Apply(db, c).0.tokens, j) <==> IsRotated(db.tokens, j) || rotates)
  {
    if c.RotateToken? && Apply(db, c).1.Ok? {
      IssueEffect(db, c);
    }
  }

  /** What the counts below need of the rows. */
  ghost predicate SoundRows(tokens: Tokens) {
    forall j | j in tokens ::
      tokens[j].familyId != "" && tokens[j].familyId in tokens &&
      (tokens[j].Live() ==> tokens[j].revokedReason.None? && tokens[j].replacedByJti.None?)
  }

  lemma RowsAreSound(iss: Issuer, db: Database)
    requires iss.WellFormed() && Invariant(iss, db)
    ensures SoundRows(db.tokens)
  {
    forall j | j in db.tokens
      ensures db.tokens[j].familyId != "" && db.tokens[j].familyId in db.tokens
      ensures db.tokens[j].Live() ==> db.tokens[j].revokedReason.None? && db.tokens[j].replacedByJti.None?
    {
      assert GoodRow(iss, db, j);
      if db.tokens[j].Live() {
        LiveRowHasNoSuccessor(iss, db, j);
      }
    }
  }

  /** A JTI is rotated at most once in a run, and its row says whether it was. */
  lemma RotatedAfterLast(db: Database, c: Call, j: string)
    requires SoundRows(db.tokens)
    ensures var rotates := c.RotateToken? && c.oldJti == j && Apply(db, c).1.Ok?;
            One(IsRotated(Apply(db, c).0.tokens, j)) == One(IsRotated(db.tokens, j)) + One(rotates)
  {
    RotatedAfterCall(db, c, j);
  }

  lemma {:induction false} RotatedAtMostOnce(iss: Issuer, calls: seq<Call>, j: string)
    requires iss.WellFormed() && Feasible(iss, calls)
    ensures RotationsOf(calls, j) == One(IsRotated(After(calls).tokens, j))
  {
    if calls != [] {
      var init := calls[..|calls| - 1];
      RotatedAtMostOnce(iss, init, j);
      ReachableInvariant(iss, init);
      RowsAreSound(iss, After(init));
      RotatedAfterLast(After(init), calls[|calls| - 1], j);
    }
  }

  function FamilyRows(tokens: Tokens, f: string): set<string> {
    set j | j in tokens && tokens[j].familyId == f
  }

  function RotatedRows(tokens: Tokens, f: string): set<string> {
    set j | j in tokens && tokens[j].familyId == f && IsRotated(tokens, j)
  }

  lemma FamilyAfterIssue(tokens: Tokens, j: string, k: string, row: RefreshToken, next: RefreshToken, f: string)
    requires j in tokens && k !in tokens
    requires !IsRotated(tokens, j) && row.revokedReason == Some(Rotated) && next.revokedReason.None?
    requires row.familyId == tokens[j].familyId == next.familyId
    ensures var hit := tokens[j].familyId == f;
            var tokens' := tokens[k := next][j := row];
            && RotatedRows(tokens', f) == RotatedRows(tokens, f) + (if hit then {j} else {})
            && FamilyRows(tokens', f) == FamilyRows(tokens, f) + (if hit then {k} else {})
            && j !in RotatedRows(tokens, f) && k !in FamilyRows(tokens, f)
            && (hit ==> j in FamilyRows(tokens, f))
  {
  }

  lemma FamilyAfterRotation(db: Database, c: Call, f: string)
    requires c.RotateToken? && Apply(db, c).1.Ok? && SoundRows(db.tokens)
    ensures var tokens' := Apply(db, c).0.tokens;
            && |RotatedRows(tokens', f)| == |RotatedRows(db.tokens, f)| + One(RotatesIn(db, c, f))
            && |FamilyRows(tokens', f)| == |FamilyRows(db.tokens, f)| + One(RotatesIn(db, c, f))
            && (RotatesIn(db, c, f) ==> FamilyRows(db.tokens, f) != {})
  {
    IssueEffect(db, c);
    var row := db.tokens[c.oldJti];
    FamilyAfterIssue(db.tokens, c.oldJti, c.nextJti,
                     row.Revoked(c.clock.write, Rotated).(replacedByJti := Some(c.nextJti)),
                     NewRow(c.userId, row.familyId, c.nextHash, c.nextExpiresAt), f);
  }

  lemma FamilyAfterRow(tokens: Tokens, k: string, row: RefreshToken, f: string)
    requires k !in tokens && row.familyId == k && row.revokedReason.None? && SoundRows(tokens)
    ensures RotatedRows(tokens[k := row], f) == RotatedRows(tokens, f)
    ensures f == k ==> FamilyRows(tokens, f) == {} && FamilyRows(tokens[k := row], f) == {f}
    ensures f != k ==> FamilyRows(tokens[k := row], f) == FamilyRows(tokens, f)
  {
  }

  lemma FamilyAfterLogin(db: Database, c: Call, f: string)
    requires c.StoreToken? && Apply(db, c).1.Ok? && c.familyId == c.jti && SoundRows(db.tokens)
    ensures var tokens' := Apply(db, c).0.tokens;
            && RotatedRows(tokens', f) == RotatedRows(db.tokens, f)
            && (f == c.jti ==> FamilyRows(db.tokens, f) == {} && FamilyRows(tokens', f) == {f})
            && (f != c.jti ==> FamilyRows(tokens', f) == FamilyRows(db.tokens, f))
  {
    FamilyAfterRow(db.tokens, c.jti, NewRow(c.userId, c.familyId, c.tokenHash, c.expiresAt), f);
  }

  lemma FamilyUnderRevocation(tokens: Tokens, tokens': Tokens, f: string)
    requires OnlyRevoked(tokens, tokens')
    requires forall j | j in tokens && tokens[j].Live() :: tokens[j].revokedReason.None?
    ensures RotatedRows(tokens', f) == RotatedRows(tokens, f) && FamilyRows(tokens', f) == FamilyRows(tokens, f)
  {
    forall j | j in tokens
      ensures tokens'[j].familyId == tokens[j].familyId && (IsRotated(tokens', j) <==> IsRotated(tokens, j))
    {
    }
    assert tokens'.Keys == tokens.Keys;
    assert FamilyRows(tokens', f) == FamilyRows(tokens, f);
  }

  lemma FamilyAfterQuietCall(db: Database, c: Call, f: string)
    requires !Inserts(db, c) && SoundRows(db.tokens)
    ensures RotatedRows(Apply(db, c).0.tokens, f) == RotatedRows(db.tokens, f)
    ensures FamilyRows(Apply(db, c).0.tokens, f) == FamilyRows(db.tokens, f)
  {
    QuietCallOnlyRevokes(db, c);
    FamilyUnderRevocation(db.tokens, Apply(db, c).0.tokens, f);
  }

  lemma FamilyAfterCall(db: Database, c: Call, f: string)
    requires SoundRows(db.tokens) && (c.StoreToken? ==> c.familyId == c.jti)
    ensures var tokens' := Apply(db, c).0.tokens;
            var rotates := One(RotatesIn(db, c, f));
            && |RotatedRows(tokens', f)| == |RotatedRows(db.tokens, f)| + rotates
            && |FamilyRows(tokens', f)| - One(FamilyRows(tokens', f) != {}) ==
                 |FamilyRows(db.tokens, f)| - One(FamilyRows(db.tokens, f) != {}) + rotates
  {
    if !Inserts(db, c) {
      FamilyAfterQuietCall(db, c, f);
    } else if c.RotateToken? {
      FamilyAfterRotation(db, c, f);
    } else {
      FamilyAfterLogin(db, c, f);
    }
  }

  /** A family has as many rotated rows as rotations, and one row more than that once its login is stored. */
  lemma {:induction false} FamilyIsConserved(iss: Issuer, calls: seq<Call>, f: string)
    requires iss.WellFormed() && Feasible(iss, calls)
    ensures var tokens := After(calls).tokens;
            && |RotatedRows(tokens, f)| == RotationsIn(calls, f)
            && |FamilyRows(tokens, f)| == One(FamilyRows(tokens, f) != {}) + RotationsIn(calls, f)
  {
    if calls != [] {
      var init := calls[..|calls| - 1];
      FamilyIsConserved(iss, init, f);
      ReachableInvariant(iss, init);
      RowsAreSound(iss, After(init));
      FamilyAfterCall(After(init), calls[|calls| - 1], f);
    }
  }
}
