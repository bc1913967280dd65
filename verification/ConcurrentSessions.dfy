/** The theorems about families, for tables and answers of every interleaving. */
module ConcurrentSessions {
  import opened SessionModel
  import opened FamilyProtocol
  import opened FamilyTheorems
  import opened RowLocks
  import opened Serializability
  import opened SerialTheorem

  lemma {:induction false} CallsAt(log: seq<Entry>)
    ensures |Calls(log)| == |log|
    ensures forall i | 0 <= i < |log| :: Calls(log)[i] == log[i].call
  {
    if log != [] {
      CallsAt(log[..|log| - 1]);
    }
  }

  lemma {:induction false} SerialPrefix(iss: Issuer, order: seq<Entry>, n: nat)
    requires Feasible(iss, Calls(order)) && Faithful(order) && n <= |order|
    ensures Feasible(iss, Calls(order[..n])) && Faithful(order[..n])
  {
    if n < |order| {
      var init := order[..|order| - 1];
      CallsAt(order);
      CallsAt(init);
      assert Calls(order)[..|Calls(order)| - 1] == Calls(init);
      SerialPrefix(iss, init, n);
      assert init[..n] == order[..n];
    } else {
      assert order[..n] == order;
    }
  }

  lemma CallsSnoc(log: seq<Entry>, e: Entry)
    ensures Calls(log + [e]) == Calls(log) + [e.call]
  {
    Snoc(log, e);
  }

  lemma AfterEntry(init: seq<Entry>, e: Entry)
    ensures After(Calls(init + [e])) == Apply(After(Calls(init)), e.call).0
  {
    CallsSnoc(init, e);
    AfterAppend(Calls(init), [e.call]);
    assert Calls(init) + [e.call][..0] == Calls(init);
  }

  lemma {:induction false} CallsConcat(a: seq<Entry>, b: seq<Entry>)
    ensures Calls(a + b) == Calls(a) + Calls(b)
  {
    if b == [] {
      assert a + b == a;
    } else {
      var init, last := b[..|b| - 1], b[|b| - 1];
      CallsConcat(a, init);
      CallsSnoc(a + init, last);
      CallsSnoc(init, last);
      assert a + b == a + init + [last] && b == init + [last];
    }
  }

  lemma Around<T>(order: seq<T>, i: nat)
    requires i < |order|
    ensures order == (order[..i] + [order[i]]) + order[i + 1..]
  {
  }

  lemma CallsAround(order: seq<Entry>, i: nat)
    requires i < |order|
    ensures Calls(order) == Calls(order[..i]) + [order[i].call] + Calls(order[i + 1..])
  {
    Around(order, i);
    CallsSnoc(order[..i], order[i]);
    CallsConcat(order[..i] + [order[i]], order[i + 1..]);
  }

  /** The answer of an entry is the one its call gets after the calls before it. */
  lemma AnswerAt(iss: Issuer, order: seq<Entry>, k: nat)
    requires Feasible(iss, Calls(order)) && Faithful(order) && k < |order|
    ensures Feasible(iss, Calls(order[..k]))
    ensures order[k].answer == Apply(After(Calls(order[..k])), order[k].call).1
  {
    SerialPrefix(iss, order, k);
    SerialPrefix(iss, order, k + 1);
    var upTo := order[..k + 1];
    assert upTo[..|upTo| - 1] == order[..k] && upTo[|upTo| - 1] == order[k];
  }

  /** The calls before entry `k`, split at an earlier entry `i`. */
  lemma CallsBetween(order: seq<Entry>, i: nat, k: nat)
    requires i < k <= |order|
    ensures Calls(order[..k]) == Calls(order[..i]) + [order[i].call] + Calls(order[i + 1..k])
  {
    CallsAround(order[..k], i);
    assert order[..k][..i] == order[..i] && order[..k][i + 1..] == order[i + 1..k];
  }

  // ---------- what clients were told ----------

  /** The client of transaction `t` asked for `c` and was told `answer`. */
  ghost predicate Answered(s: System, t: nat, c: Call, answer: Answer) {
    t in s.asked && t in s.replies && s.asked[t].call == c && s.replies[t] == answer
  }

  /** Where the serial order has an answered transaction. */
  lemma PlaceOf(iss: Issuer, s: System, order: seq<Entry>, t: nat, c: Call, answer: Answer) returns (i: nat)
    requires IsSerialOrder(iss, s, order) && Answered(s, t, c, answer)
    ensures i < |order| && order[i].tx == t && order[i].call == c && order[i].answer == answer
  {
    MembersAt(order);
    i :| i < |order| && order[i].tx == t;
  }

  /** Committed tables of every interleaving satisfy the invariant, so a family has one live row at most. */
  lemma CommittedTablesAreSound(iss: Issuer, actions: seq<Action>)
    requires iss.WellFormed() && Runnable(iss, actions)
    ensures var db := Reached(iss, actions).committed;
            && Invariant(iss, db)
            && (forall j, k | j in db.tokens && k in db.tokens && db.tokens[j].familyId == db.tokens[k].familyId &&
                              db.tokens[j].Live() && db.tokens[k].Live() :: j == k)
  {
    StrictlySerializable(iss, actions);
    var s := Reached(iss, actions);
    var order: seq<Entry> :| IsSerialOrder(iss, s, order);
    ReachableInvariant(iss, Calls(order));
    forall j, k | j in s.committed.tokens && k in s.committed.tokens &&
                  s.committed.tokens[j].familyId == s.committed.tokens[k].familyId &&
                  s.committed.tokens[j].Live() && s.committed.tokens[k].Live()
      ensures j == k
    {
      AtMostOneLive(iss, Calls(order), j, k);
    }
  }

  /** Of two rotations of one JTI in a serial order the later one is not answered `Ok`. */
  lemma LaterRotationFails(iss: Issuer, order: seq<Entry>, i: nat, k: nat)
    requires Feasible(iss, Calls(order)) && Faithful(order) && i < k < |order|
    requires order[i].call.RotateToken? && order[k].call.RotateToken? && order[i].call.oldJti == order[k].call.oldJti
    ensures !(order[i].answer.Ok? && order[k].answer.Ok?)
  {
    if order[i].answer.Ok? {
      AnswerAt(iss, order, i);
      AnswerAt(iss, order, k);
      CallsBetween(order, i, k);
      SecondRotationFails(Calls(order[..i]), order[i].call, Calls(order[i + 1..k]), order[k].call);
    }
  }

  /** However many presentations run at once, one rotation of a JTI at most is answered `Ok`. */
  lemma OneRotationWins(iss: Issuer, actions: seq<Action>, t: nat, c: Call, u: nat, d: Call)
    requires Runnable(iss, actions)
    requires Answered(Reached(iss, actions), t, c, Ok) && Answered(Reached(iss, actions), u, d, Ok)
    requires c.RotateToken? && d.RotateToken? && c.oldJti == d.oldJti
    ensures t == u
  {
    StrictlySerializable(iss, actions);
    var s := Reached(iss, actions);
    var order: seq<Entry> :| IsSerialOrder(iss, s, order);
    var i := PlaceOf(iss, s, order, t, c, Ok);
    var k := PlaceOf(iss, s, order, u, d, Ok);
    if i < k {
      LaterRotationFails(iss, order, i, k);
    } else if k < i {
      LaterRotationFails(iss, order, k, i);
    }
  }

  /** The JTI of the row a call adds. */
  function Brings(c: Call): Option<string> {
    match c
    case StoreToken(_, jti, _, _, _) => Some(jti)
    case RotateToken(_, _, _, _, nextJti, _, _, _) => Some(nextJti)
    case _ => None
  }

  lemma BringsRow(db: Database, c: Call)
    requires Brings(c).Some? && Apply(db, c).1.Ok?
    ensures Brings(c).value !in db.tokens && Brings(c).value in Apply(db, c).0.tokens
  {
  }

  lemma LaterInsertFails(iss: Issuer, order: seq<Entry>, i: nat, k: nat)
    requires Feasible(iss, Calls(order)) && Faithful(order) && i < k < |order|
    requires Brings(order[i].call).Some? && Brings(order[i].call) == Brings(order[k].call)
    ensures !(order[i].answer.Ok? && order[k].answer.Ok?)
  {
    if order[i].answer.Ok? && order[k].answer.Ok? {
      AnswerAt(iss, order, i);
      AnswerAt(iss, order, k);
      CallsBetween(order, i, k);
      var calls, c := Calls(order[..i]), order[i].call;
      BringsRow(After(calls), c);
      AfterAppend(calls, [c]);
      assert calls + [c][..0] == calls;
      RevocationIsFinal(calls + [c], Calls(order[i + 1..k]));
      BringsRow(After(Calls(order[..k])), order[k].call);
    }
  }

  /** A JTI is stored by one transaction at most. */
  lemma OneInsertWins(iss: Issuer, actions: seq<Action>, t: nat, c: Call, u: nat, d: Call)
    requires Runnable(iss, actions)
    requires Answered(Reached(iss, actions), t, c, Ok) && Answered(Reached(iss, actions), u, d, Ok)
    requires Brings(c).Some? && Brings(c) == Brings(d)
    ensures t == u
  {
    StrictlySerializable(iss, actions);
    var s := Reached(iss, actions);
    var order: seq<Entry> :| IsSerialOrder(iss, s, order);
    var i := PlaceOf(iss, s, order, t, c, Ok);
    var k := PlaceOf(iss, s, order, u, d, Ok);
    if i < k {
      LaterInsertFails(iss, order, i, k);
    } else if k < i {
      LaterInsertFails(iss, order, k, i);
    }
  }

  lemma NewlyRotated(db: Database, c: Call, j: string)
    requires IsRotated(Apply(db, c).0.tokens, j) && !IsRotated(db.tokens, j)
    ensures c.RotateToken? && c.oldJti == j && Apply(db, c).1.Ok?
  {
  }

  lemma {:induction false} RotatedHasRotation(order: seq<Entry>, j: string) returns (i: nat)
    requires Faithful(order) && IsRotated(After(Calls(order)).tokens, j)
    ensures i < |order| && order[i].call.RotateToken? && order[i].call.oldJti == j && order[i].answer.Ok?
  {
    assert order != [];
    var init, e := order[..|order| - 1], order[|order| - 1];
    assert order == init + [e];
    AfterEntry(init, e);
    if IsRotated(After(Calls(init)).tokens, j) {
      i := RotatedHasRotation(init, j);
    } else {
      NewlyRotated(After(Calls(init)), e.call, j);
      i := |order| - 1;
    }
  }

  lemma ReplayMeansRotated(db: Database, c: Call)
    requires c.RotateToken? && Apply(db, c).1 == TokenReplay
    ensures IsRotated(db.tokens, c.oldJti)
  {
  }

  /** In a serial order a replay comes after a successful rotation of its token. */
  lemma ReplayFollowsRotation(iss: Issuer, order: seq<Entry>, k: nat) returns (i: nat)
    requires Feasible(iss, Calls(order)) && Faithful(order) && k < |order|
    requires order[k].call.RotateToken? && order[k].answer == TokenReplay
    ensures i < k && order[i].call.RotateToken? && order[i].call.oldJti == order[k].call.oldJti && order[i].answer.Ok?
  {
    AnswerAt(iss, order, k);
    SerialPrefix(iss, order, k);
    ReplayMeansRotated(After(Calls(order[..k])), order[k].call);
    i := RotatedHasRotation(order[..k], order[k].call.oldJti);
  }

  /** A token is taken for a replay only if another transaction was told that its rotation succeeded. */
  lemma ReplayHasWinner(iss: Issuer, actions: seq<Action>, t: nat, c: Call) returns (u: nat, d: Call)
    requires Runnable(iss, actions) && c.RotateToken? && Answered(Reached(iss, actions), t, c, TokenReplay)
    ensures u != t && d.RotateToken? && d.oldJti == c.oldJti && Answered(Reached(iss, actions), u, d, Ok)
  {
    StrictlySerializable(iss, actions);
    var s := Reached(iss, actions);
    var order: seq<Entry> :| IsSerialOrder(iss, s, order);
    var k := PlaceOf(iss, s, order, t, c, TokenReplay);
    var i := ReplayFollowsRotation(iss, order, k);
    u, d := order[i].tx, order[i].call;
  }

  /** A token that some transaction stored, and none was told it rotated, is in the tables and not rotated. */
  lemma UnrotatedIsCommitted(iss: Issuer, actions: seq<Action>, t: nat, c: Call)
    requires Runnable(iss, actions) && Answered(Reached(iss, actions), t, c, Ok) && Brings(c).Some?
    ensures var s := Reached(iss, actions);
            var j := Brings(c).value;
            && j in s.committed.tokens
            && (IsRotated(s.committed.tokens, j) ==>
                  exists u, d :: Answered(s, u, d, Ok) && d.RotateToken? && d.oldJti == j)
  {
    StrictlySerializable(iss, actions);
    var s := Reached(iss, actions);
    var j := Brings(c).value;
    var order: seq<Entry> :| IsSerialOrder(iss, s, order);
    var i := PlaceOf(iss, s, order, t, c, Ok);
    AnswerAt(iss, order, i);
    CallsAround(order, i);
    var calls := Calls(order[..i]);
    BringsRow(After(calls), c);
    AfterAppend(calls, [c]);
    assert calls + [c][..0] == calls;
    RevocationIsFinal(calls + [c], Calls(order[i + 1..]));
    if IsRotated(s.committed.tokens, j) {
      var k := RotatedHasRotation(order, j);
      assert Answered(s, order[k].tx, order[k].call, Ok);
    }
  }

  /** Once a replay has been answered, no committed row of its family is live. */
  lemma ReplayedFamilyIsDead(iss: Issuer, actions: seq<Action>, t: nat, c: Call)
    requires iss.WellFormed() && Runnable(iss, actions)
    requires c.RotateToken? && Answered(Reached(iss, actions), t, c, TokenReplay)
    ensures var db := Reached(iss, actions).committed;
            c.oldJti in db.tokens && FamilyDead(db, db.tokens[c.oldJti].familyId)
  {
    StrictlySerializable(iss, actions);
    var s := Reached(iss, actions);
    var order: seq<Entry> :| IsSerialOrder(iss, s, order);
    var k := PlaceOf(iss, s, order, t, c, TokenReplay);
    AnswerAt(iss, order, k);
    CallsAround(order, k);
    ReplayedFamilyEndsDead(iss, Calls(order[..k]), c, Calls(order[k + 1..]));
  }

  lemma {:induction false} RealTimeAt(log: seq<Entry>, k: nat)
    requires RealTime(log) && k < |log|
    ensures log[k].after <= Members(log[..k])
  {
    if k < |log| - 1 {
      RealTimeAt(log[..|log| - 1], k);
      assert log[..|log| - 1][..k] == log[..k];
    }
  }

  /** In every serial order a call that had answered before another began precedes it. */
  lemma AnsweredComesFirst(iss: Issuer, actions: seq<Action>, order: seq<Entry>, i: nat, k: nat)
    requires Runnable(iss, actions) && IsSerialOrder(iss, Reached(iss, actions), order)
    requires i < |order| && k < |order| && order[i].tx in Reached(iss, actions).asked[order[k].tx].after
    ensures i < k
  {
    RealTimeAt(order, k);
    MembersAt(order[..k]);
    var m :| 0 <= m < |order[..k]| && order[..k][m].tx == order[i].tx;
    assert order[m].tx == order[i].tx;
  }

  // ---------- the version cut-off ----------

  predicate IsChange(c: Call, answer: Answer, u: int) {
    c.ChangePassword? && c.userId == u && answer.Ok?
  }

  /** The password changes of a user that were answered `Ok`. */
  ghost function Changes(s: System, u: int): set<nat> {
    set t | t in s.replies && t in s.asked && IsChange(s.asked[t].call, s.replies[t], u)
  }

  function ChangesIn(order: seq<Entry>, u: int): set<nat> {
    set i | 0 <= i < |order| && IsChange(order[i].call, order[i].answer, u) :: order[i].tx
  }

  lemma CallCountsVersion(db: Database, c: Call, u: int)
    ensures var (db', answer) := Apply(db, c);
            && (u in db.users ==> u in db'.users && db'.users[u].authVersion ==
                                  db.users[u].authVersion + (if IsChange(c, answer, u) then 1 else 0))
            && (u !in db.users ==> !IsChange(c, answer, u) && (u in db'.users ==> db'.users[u].authVersion == 1))
  {
  }

  lemma ChangesSnoc(init: seq<Entry>, e: Entry, u: int)
    requires forall i | 0 <= i < |init| :: init[i].tx != e.tx
    ensures e.tx !in ChangesIn(init, u)
    ensures ChangesIn(init + [e], u) == ChangesIn(init, u) + (if IsChange(e.call, e.answer, u) then {e.tx} else {})
  {
    var order := init + [e];
    forall t | t in ChangesIn(init, u)
      ensures t in ChangesIn(order, u)
    {
      var i :| 0 <= i < |init| && IsChange(init[i].call, init[i].answer, u) && init[i].tx == t;
      assert order[i] == init[i];
    }
    assert order[|init|] == e;
  }

  /** The version of a user counts the password changes before. */
  lemma {:induction false} VersionCountsChanges(order: seq<Entry>, u: int)
    requires Faithful(order)
    requires forall i, k | 0 <= i < k < |order| :: order[i].tx != order[k].tx
    ensures var users := After(Calls(order)).users;
            if u in users then users[u].authVersion == 1 + |ChangesIn(order, u)| else ChangesIn(order, u) == {}
  {
    if order != [] {
      var init, e := order[..|order| - 1], order[|order| - 1];
      VersionCountsChanges(init, u);
      CallCountsVersion(After(Calls(init)), e.call, u);
      assert order == init + [e];
      AfterEntry(init, e);
      ChangesSnoc(init, e, u);
    }
  }

  lemma ActionKeepsAnswers(iss: Issuer, s: System, a: Action)
    requires LogMatches(s) && Enabled(iss, s, a)
    ensures var s' := Do(iss, s, a);
            && (forall t | t in s.asked :: t in s'.asked && s'.asked[t] == s.asked[t])
            && (forall t | t in s.replies :: t in s'.replies && s'.replies[t] == s.replies[t])
            && (forall t | t in s'.asked && t !in s.asked :: s'.asked[t].after == s.replies.Keys)
  {
  }

  /** What was asked and answered stays, and who begins later begins after it. */
  lemma {:induction false} AnswersStay(iss: Issuer, actions: seq<Action>, n: nat)
    requires Runnable(iss, actions) && n <= |actions|
    ensures Runnable(iss, actions[..n])
    ensures var s0, s := Reached(iss, actions[..n]), Reached(iss, actions);
            && (forall t | t in s0.asked :: t in s.asked && s.asked[t] == s0.asked[t])
            && (forall t | t in s0.replies :: t in s.replies && s.replies[t] == s0.replies[t])
            && (forall t | t in s.asked && t !in s0.asked :: s0.replies.Keys <= s.asked[t].after)
  {
    if n == |actions| {
      assert actions[..n] == actions;
    } else {
      var init := actions[..|actions| - 1];
      AnswersStay(iss, init, n);
      assert init[..n] == actions[..n];
      ReachedInvariant(iss, init);
      ActionKeepsAnswers(iss, Reached(iss, init), actions[|actions| - 1]);
    }
  }

  /** A serial order has at least the changes of an earlier state before a transaction that began later. */
  lemma ChangesPrecede(iss: Issuer, s0: System, s: System, order: seq<Entry>, k: nat, u: int)
    requires IsSerialOrder(iss, s, order) && k < |order| && s0.replies.Keys <= order[k].after
    requires forall t | t in s0.asked :: t in s.asked && s.asked[t] == s0.asked[t]
    requires forall t | t in s0.replies :: t in s.replies && s.replies[t] == s0.replies[t]
    ensures Changes(s0, u) <= ChangesIn(order[..k], u)
  {
    RealTimeAt(order, k);
    MembersAt(order[..k]);
    forall t | t in Changes(s0, u)
      ensures t in ChangesIn(order[..k], u)
    {
      var i :| 0 <= i < |order[..k]| && order[..k][i].tx == t;
      assert order[i].tx == t;
    }
  }

  lemma VersionIsCommitted(iss: Issuer, actions: seq<Action>, u: int)
    requires Runnable(iss, actions) && u in Reached(iss, actions).committed.users
    ensures Reached(iss, actions).committed.users[u].authVersion == 1 + |Changes(Reached(iss, actions), u)|
  {
    StrictlySerializable(iss, actions);
    var s := Reached(iss, actions);
    var order: seq<Entry> :| IsSerialOrder(iss, s, order);
    VersionCountsChanges(order, u);
    MembersAt(order);
    forall t | t in Changes(s, u)
      ensures t in ChangesIn(order, u)
    {
      var i: nat :| i < |order| && order[i].tx == t;
      assert IsChange(order[i].call, order[i].answer, u);
    }
    assert ChangesIn(order, u) == Changes(s, u);
  }

  /** A rotation that is not refused has a token signed after every change before it in the order. */
  lemma RotationFollowsChanges(iss: Issuer, order: seq<Entry>, i: nat)
    requires Feasible(iss, Calls(order)) && Faithful(order) && i < |order|
    requires forall i, k | 0 <= i < k < |order| :: order[i].tx != order[k].tx
    requires order[i].call.RotateToken? && order[i].answer != TokenInvalid
    ensures 1 + |ChangesIn(order[..i], order[i].call.userId)| <= order[i].call.authVersion
  {
    AnswerAt(iss, order, i);
    SerialPrefix(iss, order, i);
    VersionCountsChanges(order[..i], order[i].call.userId);
  }

  lemma Larger(a: set<nat>, b: set<nat>)
    requires a <= b
    ensures |a| <= |b|
  {
    assert b == a + (b - a);
  }

  /** A rotation that is not refused has a token signed after every change answered before it began. */
  lemma RotationSeesChanges(iss: Issuer, actions: seq<Action>, n: nat, k: nat, c: Call, answer: Answer)
    requires Runnable(iss, actions) && n <= |actions| && Runnable(iss, actions[..n])
    requires k !in Reached(iss, actions[..n]).asked && Answered(Reached(iss, actions), k, c, answer)
    requires c.RotateToken? && answer != TokenInvalid
    ensures 1 + |Changes(Reached(iss, actions[..n]), c.userId)| <= c.authVersion
  {
    var s0, s := Reached(iss, actions[..n]), Reached(iss, actions);
    AnswersStay(iss, actions, n);
    StrictlySerializable(iss, actions);
    var order: seq<Entry> :| IsSerialOrder(iss, s, order);
    var i := PlaceOf(iss, s, order, k, c, answer);
    RotationFollowsChanges(iss, order, i);
    ChangesPrecede(iss, s0, s, order, i, c.userId);
    Larger(Changes(s0, c.userId), ChangesIn(order[..i], c.userId));
  }

  lemma AnsweredWasAsked(iss: Issuer, actions: seq<Action>)
    requires Runnable(iss, actions)
    ensures Reached(iss, actions).replies.Keys <= Reached(iss, actions).asked.Keys
  {
    ReachedInvariant(iss, actions);
  }

  lemma ChangesGrow(s0: System, s: System, t: nat, change: Call)
    requires change.ChangePassword? && t !in s0.replies && Answered(s, t, change, Ok)
    requires forall t | t in s0.asked :: t in s.asked && s.asked[t] == s0.asked[t]
    requires forall t | t in s0.replies :: t in s.replies && s.replies[t] == s0.replies[t]
    ensures |Changes(s0, change.userId)| + 1 <= |Changes(s, change.userId)|
  {
    Larger(Changes(s0, change.userId) + {t}, Changes(s, change.userId));
  }

  /** A change that begins after state `m` and has answered adds to the version of state `m`. */
  lemma ChangeIsCounted(iss: Issuer, actions: seq<Action>, m: nat, t: nat, change: Call)
    requires Runnable(iss, actions) && m <= |actions| && Runnable(iss, actions[..m])
    requires t !in Reached(iss, actions[..m]).asked && Answered(Reached(iss, actions), t, change, Ok)
    requires change.ChangePassword? && change.userId in Reached(iss, actions[..m]).committed.users
    ensures Reached(iss, actions[..m]).committed.users[change.userId].authVersion
            <= |Changes(Reached(iss, actions), change.userId)|
  {
    var s0, s := Reached(iss, actions[..m]), Reached(iss, actions);
    AnswersStay(iss, actions, m);
    VersionIsCommitted(iss, actions[..m], change.userId);
    AnsweredWasAsked(iss, actions[..m]);
    ChangesGrow(s0, s, t, change);
  }

  /**
   A password change begins after state `m` and has answered in state `n`; a rotation that begins
   after state `n`, with a token signed for the version of state `m` or an older one, is refused.
   */
  lemma ChangedPasswordRefusesOldTokens(iss: Issuer, actions: seq<Action>, m: nat, n: nat,
                                        t: nat, change: Call, k: nat, c: Call, answer: Answer)
    requires Runnable(iss, actions) && m <= n <= |actions|
    requires Runnable(iss, actions[..m]) && Runnable(iss, actions[..n])
    requires t !in Reached(iss, actions[..m]).asked && Answered(Reached(iss, actions[..n]), t, change, Ok)
    requires k !in Reached(iss, actions[..n]).asked && Answered(Reached(iss, actions), k, c, answer)
    requires change.ChangePassword? && c.RotateToken? && c.userId == change.userId
    requires var users := Reached(iss, actions[..m]).committed.users;
             c.userId in users && c.authVersion <= users[c.userId].authVersion
    ensures answer == TokenInvalid
  {
    if answer != TokenInvalid {
      assert actions[..n][..m] == actions[..m];
      ChangeIsCounted(iss, actions[..n], m, t, change);
      RotationSeesChanges(iss, actions, n, k, c, answer);
    }
  }

  lemma VersionAfterChange(calls: seq<Call>, c: Call)
    requires c.ChangePassword? && Apply(After(calls), c).1.Ok?
    ensures c.userId in After(calls).users && c.userId in After(calls + [c]).users
    ensures After(calls + [c]).users[c.userId].authVersion == After(calls).users[c.userId].authVersion + 1
  {
    AfterAppend(calls, [c]);
    assert calls + [c][..|[c]| - 1] == calls;
  }
}
