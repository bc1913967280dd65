/**
 Runs of the session protocol, one call after another, and what every run keeps: the shape of a
 token family, the single live tail, the finality of a revocation, and the version cut-off.
 */
module FamilyProtocol {
  import opened SessionModel

  // ---------- the tokens the server signs ----------

  /** What a refresh JWT carries, and the token it was issued for (none for a login). */
  datatype Claims = Claims(userId: int, authVersion: int, tokenHash: string, issuedAt: int, parent: Option<string>)

  /** Every refresh token signed in the course of a run, by JTI. */
  datatype Issuer = Issuer(refreshTtl: int, claims: map<string, Claims>) {
    function ExpiresAt(jti: string): int
      requires jti in claims
    {
      claims[jti].issuedAt + refreshTtl
    }

    ghost predicate WellFormed() {
      && refreshTtl > 0
      && (forall j | j in claims ::
            j != "" && claims[j].tokenHash != "" && claims[j].userId > 0 && claims[j].authVersion > 0)
      && (forall j, k | j in claims && k in claims && claims[j].tokenHash == claims[k].tokenHash :: j == k)
      && (forall k | k in claims && claims[k].parent.Some? :: Succeeds(claims[k].parent.value, k))
    }

    /** The successor copies user and version and is signed no earlier. */
    ghost predicate Succeeds(j: string, k: string)
      requires k in claims
    {
      j in claims && claims[k].userId == claims[j].userId &&
      claims[k].authVersion == claims[j].authVersion && claims[j].issuedAt <= claims[k].issuedAt
    }

    /** The handlers make this call: its token arguments are those of a signed JWT. */
    ghost predicate Sanctions(c: Call) {
      match c
      case RegisterUser(u, _) => u > 0
      case DisableUser(_) => true
      case StoreToken(u, jti, family, hash, expiresAt) =>
        jti in claims && claims[jti].parent.None? && family == jti && u == claims[jti].userId &&
        hash == claims[jti].tokenHash && expiresAt == ExpiresAt(jti)
      case RotateToken(u, version, oldJti, oldHash, nextJti, nextHash, nextExpiresAt, _) =>
        oldJti in claims && u == claims[oldJti].userId && version == claims[oldJti].authVersion &&
        oldHash == claims[oldJti].tokenHash &&
        nextJti in claims && claims[nextJti].parent == Some(oldJti) &&
        nextHash == claims[nextJti].tokenHash && nextExpiresAt == ExpiresAt(nextJti)
      case RevokeToken(u, jti, hash, _) =>
        jti in claims && u == claims[jti].userId && hash == claims[jti].tokenHash
      case ChangePassword(_, _, _, _, _) => true
    }

    /** A login signed its token for a version the user has or had. */
    ghost predicate Permits(db: Database, c: Call) {
      Sanctions(c) &&
      (c.StoreToken? ==> c.userId in db.users && claims[c.jti].authVersion <= db.users[c.userId].authVersion)
    }
  }

  // ---------- runs ----------

  function After(calls: seq<Call>): Database {
    if calls == [] then EMPTY else Apply(After(calls[..|calls| - 1]), calls[|calls| - 1]).0
  }

  function AnswerTo(calls: seq<Call>): Answer
    requires calls != []
  {
    Apply(After(calls[..|calls| - 1]), calls[|calls| - 1]).1
  }

  ghost predicate Feasible(iss: Issuer, calls: seq<Call>) {
    calls != [] ==>
      Feasible(iss, calls[..|calls| - 1]) && iss.Permits(After(calls[..|calls| - 1]), calls[|calls| - 1])
  }

  // ---------- the invariant ----------

  ghost predicate Linked(tokens: Tokens, p: seq<string>, i: nat)
    requires i + 1 < |p|
  {
    p[i] in tokens && tokens[p[i]].revokedAt.Some? && tokens[p[i]].revokedReason == Some(Rotated) &&
    tokens[p[i]].replacedByJti == Some(p[i + 1])
  }

  /** Live, or revoked for logout, password change or replay; never replaced. */
  ghost predicate IsTail(tokens: Tokens, j: string) {
    j in tokens && tokens[j].replacedByJti.None? &&
    (tokens[j].Live() || tokens[j].revokedReason in {Some(Logout), Some(PasswordChange), Some(Replay)})
  }

  /** `p` lists the rows of family `f`, each rotated into the next, up to a tail that was not rotated. */
  ghost predicate IsChain(tokens: Tokens, f: string, p: seq<string>) {
    && |p| > 0 && p[0] == f
    && (forall i, k | 0 <= i < k < |p| :: p[i] != p[k])
    && (forall j | j in p :: j in tokens && tokens[j].familyId == f)
    && (forall j | j in tokens && tokens[j].familyId == f :: j in p)
    && (forall i | 0 <= i < |p| - 1 :: Linked(tokens, p, i))
    && IsTail(tokens, p[|p| - 1])
  }

  ghost predicate GoodRow(iss: Issuer, db: Database, j: string)
    requires j in db.tokens
  {
    var row := db.tokens[j];
    && j in iss.claims
    && row.userId == iss.claims[j].userId && row.tokenHash == iss.claims[j].tokenHash
    && row.expiresAt == iss.ExpiresAt(j)
    && (row.Live() <==> row.revokedReason.None?)
    && row.userId in db.users && iss.claims[j].authVersion <= db.users[row.userId].authVersion
    && (row.replacedByJti.Some? ==>
          row.replacedByJti.value in db.tokens && row.replacedByJti.value in iss.claims &&
          iss.claims[row.replacedByJti.value].parent == Some(j))
    && row.familyId in db.tokens && row.familyId in iss.claims
    && iss.claims[j].userId == iss.claims[row.familyId].userId
    && iss.claims[j].authVersion == iss.claims[row.familyId].authVersion
  }

  ghost predicate HasChain(tokens: Tokens, f: string) {
    exists p :: IsChain(tokens, f, p)
  }

  ghost predicate Invariant(iss: Issuer, db: Database) {
    && (forall u | u in db.users :: u > 0 && db.users[u].authVersion > 0)
    && (forall j | j in db.tokens :: j in iss.claims)
    && (forall j {:trigger GoodRow(iss, db, j)} | j in db.tokens :: GoodRow(iss, db, j))
    && (forall j {:trigger HasChain(db.tokens, db.tokens[j].familyId)} | j in db.tokens ::
            HasChain(db.tokens, db.tokens[j].familyId))
  }

  // ---------- every call keeps it ----------

  /** Some live rows were revoked for a reason other than rotation; nothing else changed. */
  ghost predicate OnlyRevoked(tokens: Tokens, tokens': Tokens) {
    && tokens'.Keys == tokens.Keys
    && forall j | j in tokens' ::
         || tokens'[j] == tokens[j]
         || (tokens[j].Live() && tokens'[j].revokedAt.Some? &&
             tokens'[j].revokedReason in {Some(Logout), Some(PasswordChange), Some(Replay)} &&
             tokens'[j] == tokens[j].(revokedAt := tokens'[j].revokedAt, revokedReason := tokens'[j].revokedReason))
  }

  lemma RevocationKeepsChain(tokens: Tokens, tokens': Tokens, f: string, p: seq<string>)
    requires IsChain(tokens, f, p) && OnlyRevoked(tokens, tokens')
    ensures IsChain(tokens', f, p)
  {
    forall i | 0 <= i < |p| - 1
      ensures Linked(tokens', p, i)
    {
      assert Linked(tokens, p, i);
    }
    assert IsTail(tokens, p[|p| - 1]);
    assert p[|p| - 1] in tokens';
  }

  lemma RevocationKeepsInvariant(iss: Issuer, db: Database, db': Database)
    requires Invariant(iss, db) && OnlyRevoked(db.tokens, db'.tokens)
    requires forall u | u in db.users :: u in db'.users && db.users[u].authVersion <= db'.users[u].authVersion
    requires forall u | u in db'.users :: u > 0 && db'.users[u].authVersion > 0
    ensures Invariant(iss, db')
  {
    forall j | j in db'.tokens
      ensures GoodRow(iss, db', j) && HasChain(db'.tokens, db'.tokens[j].familyId)
    {
      assert GoodRow(iss, db, j);
      assert HasChain(db.tokens, db.tokens[j].familyId);
      var p :| IsChain(db.tokens, db.tokens[j].familyId, p);
      RevocationKeepsChain(db.tokens, db'.tokens, db.tokens[j].familyId, p);
    }
  }

  /** A row of another family leaves a chain alone. */
  lemma OtherFamilyKeepsChain(tokens: Tokens, tokens': Tokens, f: string, p: seq<string>)
    requires IsChain(tokens, f, p)
    requires forall j :: (j in tokens && tokens[j].familyId == f) <==> (j in tokens' && tokens'[j].familyId == f)
    requires forall j | j in tokens && tokens[j].familyId == f :: tokens'[j] == tokens[j]
    ensures IsChain(tokens', f, p)
  {
    forall i | 0 <= i < |p| - 1
      ensures Linked(tokens', p, i)
    {
      assert Linked(tokens, p, i) && p[i] in p;
    }
    assert p[|p| - 1] in p;
  }

  lemma LoginKeepsInvariant(iss: Issuer, db: Database, c: Call)
    requires iss.WellFormed() && Invariant(iss, db)
    requires c.StoreToken? && iss.Permits(db, c)
    ensures Invariant(iss, Apply(db, c).0)
  {
    if !BadStore(c) && Insertable(db.tokens, c.jti, c.tokenHash) {
      var db' := Apply(db, c).0;
      forall j | j in db.tokens
        ensures db.tokens[j].familyId != c.jti
      {
        assert GoodRow(iss, db, j);
      }
      forall j | j in db'.tokens
        ensures GoodRow(iss, db', j) && HasChain(db'.tokens, db'.tokens[j].familyId)
      {
        if j == c.jti {
          assert IsChain(db'.tokens, c.jti, [c.jti]);
        } else {
          assert GoodRow(iss, db, j) && HasChain(db.tokens, db.tokens[j].familyId);
          var p :| IsChain(db.tokens, db.tokens[j].familyId, p);
          OtherFamilyKeepsChain(db.tokens, db'.tokens, db.tokens[j].familyId, p);
        }
      }
    }
  }

  /** A row that was never rotated ends its chain. */
  lemma UnrotatedIsTail(tokens: Tokens, f: string, p: seq<string>, j: string)
    requires IsChain(tokens, f, p)
    requires j in tokens && tokens[j].familyId == f && tokens[j].revokedReason != Some(Rotated)
    ensures p[|p| - 1] == j
  {
    var i :| 0 <= i < |p| && p[i] == j;
    assert i < |p| - 1 ==> Linked(tokens, p, i);
  }

  lemma RotationExtendsChain(tokens: Tokens, f: string, p: seq<string>, j: string, k: string, next: RefreshToken,
                             at: int)
    requires IsChain(tokens, f, p)
    requires j in tokens && tokens[j].familyId == f && tokens[j].Live() && tokens[j].revokedReason.None?
    requires k !in tokens && next.familyId == f && next.Live() && next.replacedByJti.None?
    ensures IsChain(RevokedByJti(tokens[k := next], j, at, Rotated, Some(k)), f, p + [k])
  {
    var tokens' := RevokedByJti(tokens[k := next], j, at, Rotated, Some(k));
    var q := p + [k];
    UnrotatedIsTail(tokens, f, p, j);
    forall i | 0 <= i < |q| - 1
      ensures Linked(tokens', q, i)
    {
      if i < |p| - 1 {
        assert Linked(tokens, p, i);
        assert p[i] in p && p[i] != p[|p| - 1];
      }
    }
    forall i, m | 0 <= i < m < |q|
      ensures q[i] != q[m]
    {
      assert q[i] in p;
    }
    assert IsTail(tokens', k);
  }

  /** The exact table a successful rotation leaves, and why its successor may join the family. */
  ghost predicate Rotates(iss: Issuer, db: Database, c: Call, db': Database) {
    && c.RotateToken? && c.oldJti in db.tokens && db.tokens[c.oldJti].Live() && c.nextJti !in db.tokens
    && c.oldJti in iss.claims && c.nextJti in iss.claims
    && iss.claims[c.nextJti].parent == Some(c.oldJti) && iss.Succeeds(c.oldJti, c.nextJti)
    && c.nextHash == iss.claims[c.nextJti].tokenHash && c.nextExpiresAt == iss.ExpiresAt(c.nextJti)
    && c.userId == db.tokens[c.oldJti].userId
    && db'.users == db.users
    && db'.tokens == RevokedByJti(
         db.tokens[c.nextJti := NewRow(c.userId, db.tokens[c.oldJti].familyId, c.nextHash, c.nextExpiresAt)],
         c.oldJti, c.clock.write, Rotated, Some(c.nextJti))
  }

  lemma RotationEffect(iss: Issuer, db: Database, c: Call)
    requires iss.WellFormed() && Invariant(iss, db)
    requires c.RotateToken? && iss.Permits(db, c) && Apply(db, c).1.Ok?
    ensures Rotates(iss, db, c, Apply(db, c).0)
  {
    assert GoodRow(iss, db, c.oldJti);
    assert iss.Succeeds(c.oldJti, c.nextJti);
  }

  lemma RotationKeepsRow(iss: Issuer, db: Database, c: Call, db': Database, j: string)
    requires Invariant(iss, db) && Rotates(iss, db, c, db') && j in db'.tokens
    ensures GoodRow(iss, db', j)
  {
    assert GoodRow(iss, db, c.oldJti);
    if j != c.nextJti {
      assert GoodRow(iss, db, j);
    }
  }

  lemma RotationKeepsChain(iss: Issuer, db: Database, c: Call, db': Database, f: string)
    requires Invariant(iss, db) && Rotates(iss, db, c, db')
    requires HasChain(db.tokens, f)
    ensures HasChain(db'.tokens, f)
  {
    var p :| IsChain(db.tokens, f, p);
    var row := db.tokens[c.oldJti];
    assert GoodRow(iss, db, c.oldJti);
    if row.familyId == f {
      var next := NewRow(c.userId, f, c.nextHash, c.nextExpiresAt);
      RotationExtendsChain(db.tokens, f, p, c.oldJti, c.nextJti, next, c.clock.write);
    } else {
      OtherFamilyKeepsChain(db.tokens, db'.tokens, f, p);
    }
  }

  /** The chain of the family that row `j` ends up in. */
  lemma RotationKeepsChainOf(iss: Issuer, db: Database, c: Call, db': Database, j: string)
    requires Invariant(iss, db) && Rotates(iss, db, c, db') && j in db'.tokens
    ensures HasChain(db'.tokens, db'.tokens[j].familyId)
  {
    var i := if j == c.nextJti then c.oldJti else j;
    assert HasChain(db.tokens, db.tokens[i].familyId);
    RotationKeepsChain(iss, db, c, db', db.tokens[i].familyId);
  }

  lemma RotationKeepsClaims(iss: Issuer, db: Database, c: Call, db': Database)
    requires Invariant(iss, db) && Rotates(iss, db, c, db')
    ensures forall j | j in db'.tokens :: j in iss.claims
    ensures forall u | u in db'.users :: u > 0 && db'.users[u].authVersion > 0
  {
  }

  lemma RotationKeepsInvariant(iss: Issuer, db: Database, c: Call, db': Database)
    requires Invariant(iss, db) && Rotates(iss, db, c, db')
    ensures Invariant(iss, db')
  {
    RotationKeepsClaims(iss, db, c, db');
    forall j | j in db'.tokens
      ensures GoodRow(iss, db', j) && HasChain(db'.tokens, db'.tokens[j].familyId)
    {
      RotationKeepsRow(iss, db, c, db', j);
      RotationKeepsChainOf(iss, db, c, db', j);
    }
  }

  predicate Inserts(db: Database, c: Call) {
    (c.StoreToken? || c.RotateToken?) && Apply(db, c).1.Ok?
  }

  /** A call that adds no row revokes live rows at most, and user versions only grow. */
  lemma QuietCallOnlyRevokes(db: Database, c: Call)
    requires !Inserts(db, c)
    requires c.RevokeToken? && c.jti in db.tokens && db.tokens[c.jti].Live() ==> db.tokens[c.jti].replacedByJti.None?
    ensures OnlyRevoked(db.tokens, Apply(db, c).0.tokens)
  {
  }

  lemma UsersOnlyGrow(db: Database, c: Call)
    ensures forall u | u in db.users ::
              u in Apply(db, c).0.users && db.users[u].authVersion <= Apply(db, c).0.users[u].authVersion
  {
  }

  lemma LiveRowHasNoSuccessor(iss: Issuer, db: Database, j: string)
    requires Invariant(iss, db) && j in db.tokens && db.tokens[j].revokedReason != Some(Rotated)
    ensures db.tokens[j].replacedByJti.None?
  {
    var f := db.tokens[j].familyId;
    assert GoodRow(iss, db, j) && HasChain(db.tokens, f);
    var p :| IsChain(db.tokens, f, p);
    UnrotatedIsTail(db.tokens, f, p, j);
  }

  lemma UsersStayValid(db: Database, c: Call)
    requires forall u | u in db.users :: u > 0 && db.users[u].authVersion > 0
    requires c.RegisterUser? ==> c.userId > 0
    ensures forall u | u in Apply(db, c).0.users :: u > 0 && Apply(db, c).0.users[u].authVersion > 0
  {
  }

  lemma QuietCallKeepsInvariant(iss: Issuer, db: Database, c: Call)
    requires Invariant(iss, db) && iss.Permits(db, c) && !Inserts(db, c)
    ensures Invariant(iss, Apply(db, c).0)
  {
    if c.RevokeToken? && c.jti in db.tokens && db.tokens[c.jti].Live() {
      assert GoodRow(iss, db, c.jti);
      LiveRowHasNoSuccessor(iss, db, c.jti);
    }
    QuietCallOnlyRevokes(db, c);
    UsersOnlyGrow(db, c);
    UsersStayValid(db, c);
    RevocationKeepsInvariant(iss, db, Apply(db, c).0);
  }

  lemma CallKeepsInvariant(iss: Issuer, db: Database, c: Call)
    requires iss.WellFormed() && Invariant(iss, db) && iss.Permits(db, c)
    ensures Invariant(iss, Apply(db, c).0)
  {
    if c.StoreToken? {
      LoginKeepsInvariant(iss, db, c);
    } else if c.RotateToken? && Apply(db, c).1.Ok? {
      RotationEffect(iss, db, c);
      RotationKeepsInvariant(iss, db, c, Apply(db, c).0);
    } else {
      QuietCallKeepsInvariant(iss, db, c);
    }
  }

  lemma {:induction false} ReachableInvariant(iss: Issuer, calls: seq<Call>)
    requires iss.WellFormed() && Feasible(iss, calls)
    ensures Invariant(iss, After(calls))
  {
    if calls != [] {
      ReachableInvariant(iss, calls[..|calls| - 1]);
      CallKeepsInvariant(iss, After(calls[..|calls| - 1]), calls[|calls| - 1]);
    }
  }
}
