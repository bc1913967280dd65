/** The invariant of statement-level runs, and the theorem that they are strictly serializable. */
module SerialTheorem {
  import opened SessionModel
  import opened FamilyProtocol
  import opened RowLocks
  import opened Serializability

  // ---------- views move with the system ----------

  /** The same finished transactions show the same writes over the same committed tables. */
  lemma ViewTransfers(s: System, s': System, drop: set<nat>, drop': set<nat>, db: Database)
    requires IsView(s, drop, db) && s'.committed == s.committed
    requires forall t :: Shown(s, drop, t) <==> Shown(s', drop', t)
    requires forall t | Shown(s, drop, t) ::
               t in s'.txs && s'.txs[t].users == s.txs[t].users && s'.txs[t].tokens == s.txs[t].tokens
    ensures IsView(s', drop', db)
  {
    forall u | UserUntouched(s', drop', u)
      ensures Lookup(db.users, u) == Lookup(s'.committed.users, u)
    {
      assert UserUntouched(s, drop, u);
    }
    forall k | TokenUntouched(s', drop', k)
      ensures Lookup(db.tokens, k) == Lookup(s'.committed.tokens, k)
    {
      assert TokenUntouched(s, drop, k);
    }
  }

  /** A finished transaction adds its writes to every view it is not dropped from. */
  lemma ViewGrows(s: System, t: nat, x: Tx, drop: set<nat>, db: Database, db': Database)
    requires IsView(s, drop, db) && t !in drop && x.stage.Finished?
    requires t in s.txs && !s.txs[t].stage.Finished?
    requires forall o | o in s.txs && o != t :: x.held !! s.txs[o].held
    requires Settled(s) && CleanWrites(s.committed, x)
    requires db' == Database(db.users + x.users, db.tokens + x.tokens)
    ensures IsView(WithTx(s, t, x), drop, db')
  {
    var s' := WithTx(s, t, x);
    forall o | Shown(s', drop, o)
      ensures forall u | u in s'.txs[o].users :: u in db'.users && db'.users[u] == s'.txs[o].users[u]
      ensures forall k | k in s'.txs[o].tokens :: k in db'.tokens && db'.tokens[k] == s'.txs[o].tokens[k]
    {
      if o != t {
        assert Shown(s, drop, o);
        assert CleanWrites(s.committed, s.txs[o]);
      }
    }
    assert Shown(s', drop, t);
    forall u | UserUntouched(s', drop, u)
      ensures Lookup(db'.users, u) == Lookup(s'.committed.users, u)
    {
      forall o | Shown(s, drop, o)
        ensures u !in s.txs[o].users
      {
        assert Shown(s', drop, o);
      }
      assert UserUntouched(s, drop, u);
    }
    forall k | TokenUntouched(s', drop, k)
      ensures Lookup(db'.tokens, k) == Lookup(s'.committed.tokens, k)
    {
      forall o | Shown(s, drop, o)
        ensures k !in s.txs[o].tokens
      {
        assert Shown(s', drop, o);
      }
      assert TokenUntouched(s, drop, k);
    }
  }

  /** A commit moves the transaction's writes from the view's overlay into the tables. */
  lemma ViewCommits(s: System, s': System, t: nat, drop: set<nat>, db: Database)
    requires IsView(s, drop, db) && Shown(s, drop, t) && s'.txs == s.txs - {t}
    requires s'.committed == Database(s.committed.users + s.txs[t].users, s.committed.tokens + s.txs[t].tokens)
    ensures IsView(s', drop, db)
  {
    forall o | Shown(s', drop, o)
      ensures Shown(s, drop, o) && s'.txs[o] == s.txs[o]
    {
    }
    forall u | UserUntouched(s', drop, u)
      ensures Lookup(db.users, u) == Lookup(s'.committed.users, u)
    {
      if u !in s.txs[t].users {
        forall o | Shown(s, drop, o)
          ensures u !in s.txs[o].users
        {
          assert o == t || Shown(s', drop, o);
        }
        assert UserUntouched(s, drop, u);
      }
    }
    forall k | TokenUntouched(s', drop, k)
      ensures Lookup(db.tokens, k) == Lookup(s'.committed.tokens, k)
    {
      if k !in s.txs[t].tokens {
        forall o | Shown(s, drop, o)
          ensures k !in s.txs[o].tokens
        {
          assert o == t || Shown(s', drop, o);
        }
        assert TokenUntouched(s, drop, k);
      }
    }
  }

  // ---------- what one transaction knows outlives the commits of others ----------

  lemma CommitKeepsReads(db: Database, x: Tx, db': Database, y: Tx)
    requires x.held !! y.held && CleanWrites(db, y)
    requires db' == Database(db.users + y.users, db.tokens + y.tokens)
    ensures forall u | UserRow(u) in x.held :: Lookup(db'.users, u) == Lookup(db.users, u)
    ensures forall k | TokenRow(k) in x.held :: Lookup(db'.tokens, k) == Lookup(db.tokens, k)
  {
  }

  lemma CommitKeepsInsertable(db: Database, x: Tx, db': Database, y: Tx, j: string, hash: string)
    requires x.held !! y.held && CleanWrites(db, y)
    requires db' == Database(db.users + y.users, db.tokens + y.tokens)
    requires TokenRow(j) in x.held && Insertable(db.tokens, j, hash)
    requires forall m | m in y.tokens && m !in db.tokens :: y.tokens[m].tokenHash != hash
    ensures Insertable(db'.tokens, j, hash)
  {
  }

  lemma CommitKeepsKnowledge(db: Database, x: Tx, db': Database, y: Tx)
    requires Knows(db, x) && x.held !! y.held && CleanWrites(db, x) && CleanWrites(db, y)
    requires forall k, m | k in x.tokens && m in y.tokens && k !in db.tokens && m !in db.tokens ::
               x.tokens[k].tokenHash != y.tokens[m].tokenHash
    requires db' == Database(db.users + y.users, db.tokens + y.tokens)
    ensures Knows(db', x)
    ensures CleanWrites(db', x)
  {
    CommitKeepsReads(db, x, db', y);
    match x.stage
    case UserLocked(user) =>
      assert Lookup(db'.users, x.call.userId) == Lookup(db.users, x.call.userId);
    case TokenLocked(row) =>
      if x.call.RotateToken? {
        assert Lookup(db'.users, x.call.userId) == Lookup(db.users, x.call.userId);
        assert Lookup(db'.tokens, x.call.oldJti) == Lookup(db.tokens, x.call.oldJti);
      } else {
        assert Lookup(db'.tokens, x.call.jti) == Lookup(db.tokens, x.call.jti);
      }
    case NextInserted(row) =>
      assert Lookup(db'.users, x.call.userId) == Lookup(db.users, x.call.userId);
      assert Lookup(db'.tokens, x.call.oldJti) == Lookup(db.tokens, x.call.oldJti);
      assert x.call.nextJti in x.tokens;
      CommitKeepsInsertable(db, x, db', y, x.call.nextJti, x.call.nextHash);
    case UserUpdated(user) =>
      assert Lookup(db'.users, x.call.userId) == Lookup(db.users, x.call.userId);
    case _ =>
  }

  // ---------- the log ----------

  /** A serial run grows by one call. */
  lemma SerialRunGrows(iss: Issuer, kept: seq<Entry>, e: Entry)
    requires Feasible(iss, Calls(kept)) && Faithful(kept)
    requires iss.Permits(After(Calls(kept)), e.call)
    requires Apply(After(Calls(kept)), e.call).1 == e.answer
    ensures Feasible(iss, Calls(kept + [e])) && Faithful(kept + [e])
    ensures After(Calls(kept + [e])) == Apply(After(Calls(kept)), e.call).0
  {
    Snoc(kept, e);
    Snoc(Calls(kept), e.call);
    assert Calls(kept + [e]) == Calls(kept) + [e.call];
  }

  lemma AppendView(s: System, t: nat, x: Tx, drop: set<nat>, db: Database, s': System)
    requires Settled(s) && t in s.txs && !s.txs[t].stage.Finished? && CleanStep(s, t, x)
    requires IsView(s, drop, db) && t !in drop && Applies(db, x)
    requires s'.committed == s.committed && s'.txs == s.txs[t := x]
    ensures IsView(s', drop, Apply(db, x.call).0)
  {
    var db' := Apply(db, x.call).0;
    ViewGrows(s, t, x, drop, db, db');
    ViewTransfers(WithTx(s, t, x), s', drop, drop, db');
  }

  /** What the handler promised when the call began holds in every view. */
  lemma ViewPermits(iss: Issuer, s: System, t: nat, drop: set<nat>, db: Database)
    requires Settled(s) && t in s.txs && Allowed(iss, s.committed, s.txs[t]) && IsView(s, drop, db)
    ensures iss.Permits(db, s.txs[t].call)
  {
    var c := s.txs[t].call;
    if c.StoreToken? && !UserUntouched(s, drop, c.userId) {
      var o :| Shown(s, drop, o) && c.userId in s.txs[o].users;
      assert CleanWrites(s.committed, s.txs[o]);
    }
  }

  lemma AppendEntry(iss: Issuer, s: System, t: nat, x: Tx, drop: set<nat>)
    requires Ready(s, t) && x == Statement(s, t).value && x.stage.Finished?
    requires CleanStep(s, t, x) && Allowed(iss, s.committed, s.txs[t])
    requires Explains(iss, s, drop) && t !in drop
    ensures var s' := WithTx(s, t, x).(log := s.log + [Entry(t, x.call, x.stage.answer, x.after)]);
            Explains(iss, s', drop)
  {
    var e := Entry(t, x.call, x.stage.answer, x.after);
    var s' := WithTx(s, t, x).(log := s.log + [e]);
    var kept := Keep(s.log, drop);
    var db := After(Calls(kept));
    LastStatementApplies(s, t, drop, db);
    ViewPermits(iss, s, t, drop, db);
    SerialRunGrows(iss, kept, e);
    AppendView(s, t, x, drop, db, s');
    Snoc(s.log, e);
    assert Keep(s'.log, drop) == kept + [e];
  }

  // ---------- every action keeps the invariant ----------

  lemma LocksSettle(iss: Issuer, s: System)
    requires LocksOk(iss, s)
    ensures Settled(s)
  {
    forall t | t in s.txs
      ensures CleanWrites(s.committed, s.txs[t])
    {
      assert TxOk(iss, s, t);
    }
  }

  lemma BeginKeepsTx(iss: Issuer, s: System, s': System, t: nat, o: nat)
    requires o in s.txs && o != t && TxOk(iss, s, o)
    requires s'.committed == s.committed && t in s'.txs && s'.txs == s.txs[t := s'.txs[t]]
    ensures TxOk(iss, s', o)
  {
  }

  lemma NewcomerIsOk(iss: Issuer, s: System, t: nat)
    requires t in s.txs && s.txs[t].stage.Begun? && s.txs[t].held == {} && iss.Permits(s.committed, s.txs[t].call)
    requires s.txs[t].users == map[] && s.txs[t].tokens == map[]
    ensures TxOk(iss, s, t)
  {
  }

  lemma NewcomerIsApart(s: System, s': System, t: nat)
    requires Exclusive(s) && DistinctHashes(s) && t !in s.txs
    requires s'.committed == s.committed && t in s'.txs && s'.txs == s.txs[t := s'.txs[t]]
    requires s'.txs[t].held == {} && s'.txs[t].tokens == map[]
    ensures Exclusive(s') && DistinctHashes(s')
  {
  }

  lemma BeginKeepsLocks(iss: Issuer, s: System, t: nat, c: Call)
    requires LocksOk(iss, s) && Enabled(iss, s, Begin(t, c)) && t !in s.txs
    ensures LocksOk(iss, Do(iss, s, Begin(t, c)))
  {
    var s' := Do(iss, s, Begin(t, c));
    NewcomerIsApart(s, s', t);
    NewcomerIsOk(iss, s', t);
    forall o | o in s'.txs
      ensures TxOk(iss, s', o)
    {
      if o != t {
        assert TxOk(iss, s, o);
        BeginKeepsTx(iss, s, s', t, o);
      }
    }
  }

  lemma BeginKeepsExplained(iss: Issuer, s: System, s': System, t: nat)
    requires Explained(iss, s) && t !in s.txs && t in s'.txs
    requires s'.txs == s.txs[t := s'.txs[t]] && s' == s.(txs := s'.txs, asked := s'.asked) && s'.txs[t].stage.Begun?
    ensures Explained(iss, s')
  {
    assert FinishedTxs(s') == FinishedTxs(s);
    forall drop | drop <= FinishedTxs(s')
      ensures Explains(iss, s', drop)
    {
      assert Explains(iss, s, drop);
      ViewTransfers(s, s', drop, drop, After(Calls(Keep(s.log, drop))));
    }
  }

  lemma BeginKeepsLog(s: System, s': System, t: nat)
    requires LogMatches(s) && t !in s.asked && s' == s.(txs := s'.txs, asked := s'.asked)
    requires t in s'.txs && s'.txs == s.txs[t := s'.txs[t]]
    requires s'.asked == s.asked[t := Request(s'.txs[t].call, s'.txs[t].after)]
    requires s'.txs[t].stage.Begun? && s'.txs[t].after == s.replies.Keys
    ensures LogMatches(s')
  {
    assert FinishedTxs(s') == FinishedTxs(s);
    MembersAt(s.log);
  }

  lemma BeginKeeps(iss: Issuer, s: System, t: nat, c: Call)
    requires SystemInvariant(iss, s) && Enabled(iss, s, Begin(t, c))
    ensures SystemInvariant(iss, Do(iss, s, Begin(t, c)))
  {
    var s' := Do(iss, s, Begin(t, c));
    BeginKeepsLocks(iss, s, t, c);
    BeginKeepsLog(s, s', t);
    BeginKeepsExplained(iss, s, s', t);
  }

  lemma ReadyToExecute(iss: Issuer, s: System, t: nat)
    requires LocksOk(iss, s) && Enabled(iss, s, Execute(t))
    ensures Ready(s, t)
  {
    LocksSettle(iss, s);
    assert TxOk(iss, s, t);
  }

  lemma StepKeepsApart(s: System, s': System, t: nat, x: Tx)
    requires Exclusive(s) && DistinctHashes(s) && t in s.txs && Apart(s, t, x)
    requires s'.committed == s.committed && s'.txs == s.txs[t := x]
    ensures Exclusive(s') && DistinctHashes(s')
  {
  }

  lemma StepKeepsTx(iss: Issuer, s: System, s': System, t: nat, x: Tx, o: nat)
    requires o in s.txs && TxOk(iss, s, o) && (o == t ==> CleanStep(s, t, x))
    requires s'.committed == s.committed && s'.txs == s.txs[t := x]
    ensures TxOk(iss, s', o)
  {
  }

  lemma StepKeepsLocks(iss: Issuer, s: System, s': System, t: nat, x: Tx)
    requires LocksOk(iss, s) && CleanStep(s, t, x)
    requires s'.committed == s.committed && s'.txs == s.txs[t := x]
    ensures LocksOk(iss, s')
  {
    StepKeepsApart(s, s', t, x);
    forall o | o in s'.txs
      ensures TxOk(iss, s', o)
    {
      assert TxOk(iss, s, o);
      StepKeepsTx(iss, s, s', t, x, o);
    }
  }

  /** The next statement keeps what clients asked for. */
  lemma RequestsStay(s: System, s': System, t: nat)
    requires (forall o | o in s.txs :: RequestOk(s, o)) && t in s.txs
    requires s'.asked == s.asked && s'.replies == s.replies
    requires t in s'.txs && s'.txs == s.txs[t := s'.txs[t]]
    requires s'.txs[t].after == s.txs[t].after && s'.txs[t].call == s.txs[t].call
    ensures forall o | o in s'.txs :: RequestOk(s', o)
  {
    forall o | o in s'.txs
      ensures RequestOk(s', o)
    {
      assert RequestOk(s, o);
    }
  }

  /** A transaction that has not finished is not in the log, and its next statement concerns no entry. */
  lemma EntriesStay(s: System, s': System, t: nat)
    requires LogMatches(s) && t in s.txs && !s.txs[t].stage.Finished?
    requires s'.asked == s.asked && s'.replies == s.replies
    requires t in s'.txs && s'.txs == s.txs[t := s'.txs[t]]
    ensures forall i | 0 <= i < |s.log| :: s.log[i].tx != t && EntryOk(s', s.log[i])
  {
    MembersAt(s.log);
    forall i | 0 <= i < |s.log|
      ensures s.log[i].tx != t && EntryOk(s', s.log[i])
    {
      assert s.log[i].tx in Members(s.log) && EntryOk(s, s.log[i]);
    }
  }

  lemma StatementKeepsLog(s: System, s': System, t: nat, x: Tx)
    requires LogMatches(s) && t in s.txs && !s.txs[t].stage.Finished? && !x.stage.Finished?
    requires x.after == s.txs[t].after && x.call == s.txs[t].call
    requires s' == s.(txs := s.txs[t := x])
    ensures LogMatches(s')
  {
    EntriesStay(s, s', t);
    RequestsStay(s, s', t);
    assert FinishedTxs(s') == FinishedTxs(s);
  }

  /** A log grows by the entry of a transaction it does not have. */
  lemma OneMoreEntry(log: seq<Entry>, e: Entry, members: set<nat>)
    requires DistinctTxs(log) && RealTime(log) && Members(log) == members
    requires (forall i | 0 <= i < |log| :: log[i].tx != e.tx) && e.after <= members
    ensures DistinctTxs(log + [e]) && RealTime(log + [e]) && Members(log + [e]) == members + {e.tx}
  {
    Snoc(log, e);
  }

  lemma LastStatementKeepsLog(s: System, s': System, t: nat, x: Tx)
    requires LogMatches(s) && t in s.txs && !s.txs[t].stage.Finished? && x.stage.Finished?
    requires x.after == s.txs[t].after && x.call == s.txs[t].call
    requires s' == s.(txs := s.txs[t := x], log := s.log + [Entry(t, x.call, x.stage.answer, x.after)])
    ensures LogMatches(s')
  {
    var e := Entry(t, x.call, x.stage.answer, x.after);
    EntriesStay(s, s', t);
    RequestsStay(s, s', t);
    assert RequestOk(s, t);
    assert EntryOk(s', e);
    OneMoreEntry(s.log, e, s.replies.Keys + FinishedTxs(s));
    assert FinishedTxs(s') == FinishedTxs(s) + {t};
  }

  lemma DroppedView(s: System, s': System, t: nat, x: Tx, drop: set<nat>, db: Database)
    requires IsView(s, drop - {t}, db) && t in s.txs && !s.txs[t].stage.Finished?
    requires s'.committed == s.committed && s'.txs == s.txs[t := x] && (x.stage.Finished? ==> t in drop)
    ensures IsView(s', drop, db)
  {
    forall o
      ensures Shown(s, drop - {t}, o) <==> Shown(s', drop, o)
    {
      assert o != t ==> (o in s.txs <==> o in s'.txs) && (o in drop - {t} <==> o in drop);
    }
    ViewTransfers(s, s', drop - {t}, drop, db);
  }

  /** A statement that does not finish, or whose transaction is dropped, changes no view. */
  lemma DroppedStatementExplains(iss: Issuer, s: System, s': System, t: nat, x: Tx, drop: set<nat>)
    requires Explains(iss, s, drop - {t}) && t in s.txs && !s.txs[t].stage.Finished? && t !in Members(s.log)
    requires s'.committed == s.committed && s'.txs == s.txs[t := x]
    requires s'.log == if x.stage.Finished? then s.log + [Entry(t, x.call, x.stage.answer, x.after)] else s.log
    requires x.stage.Finished? ==> t in drop
    ensures Explains(iss, s', drop)
  {
    var rest := drop - {t};
    var kept := Keep(s.log, rest);
    if x.stage.Finished? {
      Snoc(s.log, Entry(t, x.call, x.stage.answer, x.after));
    }
    KeepSame(s.log, drop, rest);
    assert Keep(s'.log, drop) == kept;
    DroppedView(s, s', t, x, drop, After(Calls(kept)));
  }

  lemma ExecuteExplains(iss: Issuer, s: System, t: nat, drop: set<nat>)
    requires SystemInvariant(iss, s) && Enabled(iss, s, Execute(t)) && Ready(s, t)
    requires drop <= FinishedTxs(Do(iss, s, Execute(t)))
    ensures Explains(iss, Do(iss, s, Execute(t)), drop)
  {
    var s' := Do(iss, s, Execute(t));
    var x := Statement(s, t).value;
    var rest := drop - {t};
    assert rest <= FinishedTxs(s);
    assert Explains(iss, s, rest);
    if x.stage.Finished? && t !in drop {
      assert rest == drop && TxOk(iss, s, t);
      StatementIsClean(s, t);
      AppendEntry(iss, s, t, x, drop);
    } else {
      DroppedStatementExplains(iss, s, s', t, x, drop);
    }
  }

  lemma ExecuteKeeps(iss: Issuer, s: System, t: nat)
    requires SystemInvariant(iss, s) && Enabled(iss, s, Execute(t))
    ensures SystemInvariant(iss, Do(iss, s, Execute(t)))
  {
    var s' := Do(iss, s, Execute(t));
    var x := Statement(s, t).value;
    ReadyToExecute(iss, s, t);
    StatementIsClean(s, t);
    StepKeepsLocks(iss, s, s', t, x);
    if x.stage.Finished? {
      LastStatementKeepsLog(s, s', t, x);
    } else {
      StatementKeepsLog(s, s', t, x);
    }
    forall drop | drop <= FinishedTxs(s')
      ensures Explains(iss, s', drop)
    {
      ExecuteExplains(iss, s, t, drop);
    }
  }

  lemma CommitKeepsLocks(iss: Issuer, s: System, t: nat)
    requires LocksOk(iss, s) && Enabled(iss, s, Commit(t))
    ensures LocksOk(iss, Do(iss, s, Commit(t)))
  {
    var s' := Do(iss, s, Commit(t));
    assert TxOk(iss, s, t);
    forall o | o in s'.txs
      ensures TxOk(iss, s', o)
    {
      assert TxOk(iss, s, o);
      CommitKeepsKnowledge(s.committed, s.txs[o], s'.committed, s.txs[t]);
    }
  }

  lemma CommitKeepsLog(s: System, s': System, t: nat)
    requires LogMatches(s) && t in s.txs && s.txs[t].stage.Finished?
    requires s'.txs == s.txs - {t} && s'.log == s.log && s'.asked == s.asked
    requires s'.replies == s.replies[t := s.txs[t].stage.answer]
    ensures LogMatches(s')
  {
    assert FinishedTxs(s) == FinishedTxs(s') + {t};
    assert RequestOk(s, t);
    forall i | 0 <= i < |s.log|
      ensures EntryOk(s', s.log[i])
    {
      assert EntryOk(s, s.log[i]);
    }
    forall o | o in s'.txs
      ensures RequestOk(s', o)
    {
      assert RequestOk(s, o);
    }
  }

  lemma CommitKeeps(iss: Issuer, s: System, t: nat)
    requires SystemInvariant(iss, s) && Enabled(iss, s, Commit(t))
    ensures SystemInvariant(iss, Do(iss, s, Commit(t)))
  {
    var s' := Do(iss, s, Commit(t));
    CommitKeepsLocks(iss, s, t);
    CommitKeepsLog(s, s', t);
    forall drop | drop <= FinishedTxs(s')
      ensures Explains(iss, s', drop)
    {
      assert drop <= FinishedTxs(s);
      assert Explains(iss, s, drop);
      assert Shown(s, drop, t);
      ViewCommits(s, s', t, drop, After(Calls(Keep(s.log, drop))));
    }
  }

  lemma {:induction false} KeepEntries(log: seq<Entry>, drop: set<nat>)
    requires forall i, k | 0 <= i < k < |log| :: log[i].tx != log[k].tx
    ensures forall i | 0 <= i < |Keep(log, drop)| :: Keep(log, drop)[i] in log && Keep(log, drop)[i].tx !in drop
    ensures forall i, k | 0 <= i < k < |Keep(log, drop)| :: Keep(log, drop)[i].tx != Keep(log, drop)[k].tx
  {
    if log != [] {
      KeepEntries(log[..|log| - 1], drop);
    }
  }

  lemma RollbackKeepsLog(s: System, s': System, t: nat)
    requires LogMatches(s) && t in s.txs
    requires s' == s.(txs := s.txs - {t}, log := Keep(s.log, {t}))
    ensures LogMatches(s')
  {
    KeepEntries(s.log, {t});
    KeepMembers(s.log, {t});
    KeepRealTime(s.log, {t}, s.replies.Keys);
    assert FinishedTxs(s') == FinishedTxs(s) - {t};
  }

  lemma RollbackKeepsLocks(iss: Issuer, s: System, t: nat)
    requires LocksOk(iss, s) && Enabled(iss, s, Rollback(t))
    ensures LocksOk(iss, Do(iss, s, Rollback(t)))
  {
    var s' := Do(iss, s, Rollback(t));
    forall o | o in s'.txs
      ensures TxOk(iss, s', o)
    {
      assert TxOk(iss, s, o);
    }
  }

  lemma RollbackView(s: System, s': System, t: nat, drop: set<nat>, more: set<nat>, db: Database)
    requires IsView(s, more, db) && t in s.txs
    requires more == if s.txs[t].stage.Finished? then drop + {t} else drop
    requires s'.committed == s.committed && s'.txs == s.txs - {t}
    ensures IsView(s', drop, db)
  {
    ViewTransfers(s, s', more, drop, db);
  }

  /** Without the transaction the log explains what it explained when the transaction was dropped. */
  lemma RollbackExplains(iss: Issuer, s: System, s': System, t: nat, drop: set<nat>, more: set<nat>)
    requires Explains(iss, s, more) && t in s.txs && (t in Members(s.log) ==> s.txs[t].stage.Finished?)
    requires more == if s.txs[t].stage.Finished? then drop + {t} else drop
    requires s' == s.(txs := s.txs - {t}, log := Keep(s.log, {t}))
    ensures Explains(iss, s', drop)
  {
    KeepTwice(s.log, {t}, drop);
    KeepSame(s.log, {t} + drop, more);
    RollbackView(s, s', t, drop, more, After(Calls(Keep(s.log, more))));
  }

  lemma RollbackKeepsExplained(iss: Issuer, s: System, s': System, t: nat)
    requires Explained(iss, s) && t in s.txs && Members(s.log) == s.replies.Keys + FinishedTxs(s)
    requires s.replies.Keys !! s.txs.Keys
    requires s' == s.(txs := s.txs - {t}, log := Keep(s.log, {t}))
    ensures Explained(iss, s')
  {
    forall drop | drop <= FinishedTxs(s')
      ensures Explains(iss, s', drop)
    {
      var more := if t in FinishedTxs(s) then drop + {t} else drop;
      assert more <= FinishedTxs(s);
      assert Explains(iss, s, more);
      RollbackExplains(iss, s, s', t, drop, more);
    }
  }

  lemma RollbackKeeps(iss: Issuer, s: System, t: nat)
    requires SystemInvariant(iss, s) && Enabled(iss, s, Rollback(t))
    ensures SystemInvariant(iss, Do(iss, s, Rollback(t)))
  {
    var s' := Do(iss, s, Rollback(t));
    RollbackKeepsLocks(iss, s, t);
    RollbackKeepsLog(s, s', t);
    RollbackKeepsExplained(iss, s, s', t);
  }

  lemma {:induction false} ReachedInvariant(iss: Issuer, actions: seq<Action>)
    requires Runnable(iss, actions)
    ensures SystemInvariant(iss, Reached(iss, actions))
  {
    if actions == [] {
      assert forall drop: set<nat> | drop <= FinishedTxs(IDLE) :: Explains(iss, IDLE, drop);
    } else {
      var init := actions[..|actions| - 1];
      ReachedInvariant(iss, init);
      match actions[|actions| - 1]
      case Begin(t, c) => BeginKeeps(iss, Reached(iss, init), t, c);
      case Execute(t) => ExecuteKeeps(iss, Reached(iss, init), t);
      case Commit(t) => CommitKeeps(iss, Reached(iss, init), t);
      case Rollback(t) => RollbackKeeps(iss, Reached(iss, init), t);
    }
  }

  // ---------- the theorem ----------

  /** `order` lists the answered requests once each; run serially they give their answers and these tables. */
  ghost predicate IsSerialOrder(iss: Issuer, s: System, order: seq<Entry>) {
    && (forall i, k | 0 <= i < k < |order| :: order[i].tx != order[k].tx)
    && Members(order) == s.replies.Keys
    && (forall i | 0 <= i < |order| ::
          && order[i].tx in s.replies && s.replies[order[i].tx] == order[i].answer
          && order[i].tx in s.asked && s.asked[order[i].tx] == Request(order[i].call, order[i].after))
    && Feasible(iss, Calls(order))
    && Faithful(order)
    && After(Calls(order)) == s.committed
    && RealTime(order)
  }

  /** With every open transaction dropped the view is the committed tables. */
  lemma EmptyViewIsCommitted(s: System, drop: set<nat>, db: Database)
    requires IsView(s, drop, db) && forall t :: !Shown(s, drop, t)
    ensures db == s.committed
  {
    forall u: int
      ensures Lookup(db.users, u) == Lookup(s.committed.users, u)
    {
      assert UserUntouched(s, drop, u);
    }
    forall k: string
      ensures Lookup(db.tokens, k) == Lookup(s.committed.tokens, k)
    {
      assert TokenUntouched(s, drop, k);
    }
    SameRows(db.users, s.committed.users);
    SameRows(db.tokens, s.committed.tokens);
  }

  /**
   Every interleaving of statements, with rollbacks anywhere, commits the tables and gives the
   answers of a serial run of its answered calls, in an order that respects real time.
   */
  lemma StrictlySerializable(iss: Issuer, actions: seq<Action>)
    requires Runnable(iss, actions)
    ensures exists order :: IsSerialOrder(iss, Reached(iss, actions), order)
  {
    ReachedInvariant(iss, actions);
    var s := Reached(iss, actions);
    var drop := FinishedTxs(s);
    var order := Keep(s.log, drop);
    assert Explains(iss, s, drop);
    KeepEntries(s.log, drop);
    KeepMembers(s.log, drop);
    KeepRealTime(s.log, drop, s.replies.Keys);
    MembersAt(order);
    EmptyViewIsCommitted(s, drop, After(Calls(order)));
    assert IsSerialOrder(iss, s, order);
  }
}
