/** Locking the user row before a token row: some transaction can always go on, so none deadlock. */
module Progress {
  import opened SessionModel
  import opened FamilyProtocol
  import opened RowLocks
  import opened Serializability
  import opened SerialTheorem

  ghost predicate CanMove(s: System, t: nat) {
    t in s.txs && (s.txs[t].stage.Finished? || Statement(s, t).Some?)
  }

  ghost predicate SomeoneMoves(s: System) {
    exists t :: CanMove(s, t)
  }

  lemma WriterMoves(iss: Issuer, s: System, o: nat)
    requires LocksOk(iss, s) && o in s.txs && s.txs[o].tokens != map[]
    ensures CanMove(s, o)
  {
    assert TxOk(iss, s, o);
  }

  ghost predicate AtOldToken(s: System, o: nat) {
    && o in s.txs && s.txs[o].call.RotateToken? && s.txs[o].stage.TokenLocked?
    && UserRow(s.txs[o].call.userId) in s.txs[o].held && s.txs[o].tokens == map[]
    && s.txs[o].call.oldJti in s.committed.tokens
    && s.committed.tokens[s.txs[o].call.oldJti].userId == s.txs[o].call.userId
  }

  /** Whoever holds a token row moves, except a rotation that stands at its old token. */
  lemma TokenHolder(iss: Issuer, s: System, o: nat, k: string)
    requires LocksOk(iss, s) && o in s.txs && TokenRow(k) in s.txs[o].held
    ensures CanMove(s, o) || (AtOldToken(s, o) && s.txs[o].call.oldJti == k)
  {
    assert TxOk(iss, s, o);
  }

  /** Two transactions never hold one user's row. */
  lemma OneHolder(s: System, t: nat, o: nat, u: int)
    requires Exclusive(s) && t in s.txs && o in s.txs && t != o
    requires UserRow(u) in s.txs[t].held
    ensures UserRow(u) !in s.txs[o].held
  {
  }

  /** A scan under the user's lock waits only for transactions that move. */
  lemma ScanWaits(iss: Issuer, s: System, t: nat, u: int, family: Option<string>)
    requires LocksOk(iss, s) && t in s.txs && UserRow(u) in s.txs[t].held
    requires !ScanFree(s, t, u, family)
    ensures SomeoneMoves(s)
  {
    var o, k :| o in s.txs && o != t && TokenRow(k) in s.txs[o].held &&
                !((k in s.committed.tokens ==> !InScan(s.committed.tokens[k], u, family)) &&
                  (k in s.txs[o].tokens ==> !InScan(s.txs[o].tokens[k], u, family)));
    TokenHolder(iss, s, o, k);
    OneHolder(s, t, o, u);
    assert CanMove(s, o);
  }

  /** A token row wanted under the lock of its signer's user is held only by transactions that move. */
  lemma TokenWaits(iss: Issuer, s: System, t: nat, k: string)
    requires LocksOk(iss, s) && t in s.txs && s.txs[t].call.RotateToken?
    requires UserRow(s.txs[t].call.userId) in s.txs[t].held
    requires k in iss.claims && iss.claims[k].userId == s.txs[t].call.userId
    requires !Free(s, t, TokenRow(k))
    ensures SomeoneMoves(s)
  {
    var o :| o in s.txs && o != t && TokenRow(k) in s.txs[o].held;
    TokenHolder(iss, s, o, k);
    OneHolder(s, t, o, s.txs[t].call.userId);
    assert TxOk(iss, s, o);
    assert CanMove(s, o);
  }

  lemma HashWaits(iss: Issuer, s: System, t: nat, hash: string)
    requires LocksOk(iss, s) && !HashFree(s, t, hash)
    ensures SomeoneMoves(s)
  {
    var o, k :| o in s.txs && o != t && k in s.txs[o].tokens && k !in s.committed.tokens &&
                s.txs[o].tokens[k].tokenHash == hash;
    WriterMoves(iss, s, o);
    assert CanMove(s, o);
  }

  lemma RotationMoves(iss: Issuer, s: System, t: nat)
    requires iss.WellFormed() && LocksOk(iss, s) && t in s.txs && s.txs[t].call.RotateToken? && !s.txs[t].stage.Begun?
    ensures SomeoneMoves(s)
  {
    assert TxOk(iss, s, t);
    var x := s.txs[t];
    var c := x.call;
    if !CanMove(s, t) {
      if x.stage.UserLocked? {
        TokenWaits(iss, s, t, c.oldJti);
      } else {
        match Judge(Some(x.stage.row), c)
        case KillFamily(f) => ScanWaits(iss, s, t, c.userId, Some(f));
        case Issue(_) =>
          assert iss.Succeeds(c.oldJti, c.nextJti);
          if !HashFree(s, t, c.nextHash) {
            HashWaits(iss, s, t, c.nextHash);
          } else {
            TokenWaits(iss, s, t, c.nextJti);
          }
      }
    }
  }

  lemma StartedMoves(iss: Issuer, s: System, t: nat)
    requires iss.WellFormed() && LocksOk(iss, s) && t in s.txs && !s.txs[t].stage.Begun?
    ensures SomeoneMoves(s)
  {
    assert TxOk(iss, s, t);
    var x := s.txs[t];
    if x.call.RotateToken? {
      RotationMoves(iss, s, t);
    } else if !CanMove(s, t) {
      assert x.call.ChangePassword? && x.stage.UserUpdated?;
      ScanWaits(iss, s, t, x.call.userId, None);
    }
  }

  /** A transaction at its start waits for one that has started, if for any. */
  lemma FirstStatementWaits(iss: Issuer, s: System, t: nat)
    requires LocksOk(iss, s) && t in s.txs && s.txs[t].stage.Begun? && !CanMove(s, t)
    ensures exists o :: o in s.txs && !s.txs[o].stage.Begun?
  {
    var c := s.txs[t].call;
    if forall o | o in s.txs :: s.txs[o].stage.Begun? {
      forall o | o in s.txs
        ensures s.txs[o].held == {} && s.txs[o].tokens == map[]
      {
        assert TxOk(iss, s, o);
      }
      assert false;
    }
  }

  /** As long as a transaction is open, one can execute its next statement or commit. */
  lemma NoDeadlock(iss: Issuer, actions: seq<Action>)
    requires iss.WellFormed() && Runnable(iss, actions)
    requires Reached(iss, actions).txs != map[]
    ensures exists t ::
              Enabled(iss, Reached(iss, actions), Execute(t)) || Enabled(iss, Reached(iss, actions), Commit(t))
  {
    ReachedInvariant(iss, actions);
    var s := Reached(iss, actions);
    var t :| t in s.txs;
    if !CanMove(s, t) {
      if s.txs[t].stage.Begun? {
        FirstStatementWaits(iss, s, t);
        t :| t in s.txs && !s.txs[t].stage.Begun?;
      }
      StartedMoves(iss, s, t);
      t :| CanMove(s, t);
    }
    assert Enabled(iss, s, Execute(t)) || Enabled(iss, s, Commit(t));
  }

  // ---------- a transaction alone ----------

  function StatementsLeft(stage: Stage): nat {
    match stage
    case Begun => 4
    case UserLocked(_) => 3
    case TokenLocked(_) => 2
    case UserUpdated(_) => 1
    case NextInserted(_) => 1
    case Finished(_) => 0
  }

  lemma StatementAdvances(s: System, t: nat)
    requires t in s.txs && Statement(s, t).Some? && Knows(s.committed, s.txs[t])
    ensures StatementsLeft(Statement(s, t).value.stage) < StatementsLeft(s.txs[t].stage)
    ensures Statement(s, t).value.call == s.txs[t].call
  {
  }

  /** With nothing beside it a transaction never waits. */
  lemma AloneMoves(iss: Issuer, s: System, t: nat)
    requires iss.WellFormed() && LocksOk(iss, s) && s.txs.Keys == {t} && !s.txs[t].stage.Finished?
    ensures Ready(s, t)
  {
    LocksSettle(iss, s);
    assert TxOk(iss, s, t);
    if s.txs[t].stage.Begun? {
      if !CanMove(s, t) {
        FirstStatementWaits(iss, s, t);
      }
    } else {
      StartedMoves(iss, s, t);
    }
  }

  /** The last statement of a transaction with nothing beside it, and its commit, are the call alone. */
  lemma LastAlone(iss: Issuer, s: System, t: nat)
    requires s.txs.Keys == {t} && Ready(s, t) && Statement(s, t).value.stage.Finished?
    requires Statement(s, t).value.call == s.txs[t].call
    ensures Enabled(iss, s, Execute(t)) && Enabled(iss, Do(iss, s, Execute(t)), Commit(t))
    ensures var (db, answer) := Apply(s.committed, s.txs[t].call);
            var s' := Do(iss, Do(iss, s, Execute(t)), Commit(t));
            s'.committed == db && s'.replies == s.replies[t := answer] && s'.txs == map[] && s'.asked == s.asked
  {
    LastStatementApplies(s, t, {}, s.committed);
  }
}
