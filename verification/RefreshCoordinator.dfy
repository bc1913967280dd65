/**
 The tabs of one browser refreshing one cookie: single flight inside a tab, one lock across tabs,
 and behind them the server of `RowLocks`, whose transactions interleave statement by statement.
 Replies are delivered before a lock is released.
 */
module RefreshCoordinator {
  import opened SessionModel
  import opened FamilyProtocol
  import opened FamilyTheorems
  import opened RowLocks
  import opened Serializability
  import opened SerialTheorem
  import opened ConcurrentSessions
  import opened Progress

  /** The closure of one tab: callers share the refresh that is under way. */
  class Coordinator {
    var pending: Option<nat>
    /** Refreshes started and refreshes settled. */
    ghost var started: nat
    ghost var settled: nat

    ghost predicate Valid()
      reads this
    {
      started == settled + (if pending.Some? then 1 else 0) && (pending.Some? ==> pending.value == started)
    }

    constructor ()
      ensures Valid() && pending.None?
    {
      pending := None;
      started, settled := 0, 0;
    }

    method Refresh(next: nat) returns (promise: nat)
      requires Valid() && next == started + 1
      modifies this
      ensures Valid() && pending == Some(promise) && settled == old(settled)
      ensures old(pending).Some? ==> promise == old(pending).value && started == old(started)
      ensures old(pending).None? ==> started == old(started) + 1
    {
      if pending.None? {
        pending := Some(next);
        started := started + 1;
      }
      promise := pending.value;
    }

    /** `finally` clears the closure whether the refresh resolved or failed. */
    method Settle()
      requires Valid() && pending.Some?
      modifies this
      ensures Valid() && pending.None? && settled == old(settled) + 1 && started == old(started)
    {
      pending := None;
      settled := settled + 1;
    }
  }

  // ---------- the browser ----------

  /**
   `Queued` waits for the lock; `Sent` has sent the cookie; `Running` waits for the answer of the
   rotation its cookie led to; `Rejected` is told to clear the cookie.
   */
  datatype Tab = Idle | Queued | Sent(cookie: Option<string>) | Running(tx: nat) | Rejected

  /** `waiting` are this browser's other transactions whose reply has not arrived. */
  datatype Browser = Browser(sys: System, jar: Option<string>, tabs: map<nat, Tab>, waiting: set<nat>)

  datatype Setup = Setup(locking: bool, tabs: nat)

  /** The tokens signed in a run, and those signed for this browser, which no other one presents. */
  datatype World = World(iss: Issuer, own: set<string>)

  datatype Event =
    | Ask(tab: nat)
    | Grant(tab: nat)
    | Present(tab: nat, tx: nat, call: Call)
    | Reject(tab: nat)
    | Deliver(tab: nat)
    | Own(tx: nat, call: Call)
    | Receive(tx: nat)
    | Foreign(tx: nat, call: Call)
    | Serve(action: Action)

  predicate Busy(tab: Tab) {
    tab.Sent? || tab.Running? || tab.Rejected?
  }

  function TabOf(s: Browser, tab: nat): Tab {
    if tab in s.tabs then s.tabs[tab] else Idle
  }

  const CLOSED := Browser(IDLE, None, map[], {})

  /** The jar after the reply of a transaction: a rolled back or refused one leaves it alone. */
  function JarAfter(s: Browser, tx: nat): Option<string> {
    if tx !in s.sys.replies || tx !in s.sys.asked || !s.sys.replies[tx].Ok? then s.jar
    else
      var c := s.sys.asked[tx].call;
      if Brings(c).Some? then Brings(c) else if c.RevokeToken? || c.ChangePassword? then None else s.jar
  }

  /** The jar takes what the handlers set: a new token, nothing after a logout or password change, or no change. */
  lemma JarFollowsReplies(s: Browser, tx: nat, c: Call)
    requires tx in s.sys.asked && s.sys.asked[tx].call == c
    ensures var told := tx in s.sys.replies && s.sys.replies[tx] == Ok;
            && (told && c.RotateToken? ==> JarAfter(s, tx) == Some(c.nextJti))
            && (told && c.StoreToken? ==> JarAfter(s, tx) == Some(c.jti))
            && (told && (c.RevokeToken? || c.ChangePassword?) ==> JarAfter(s, tx) == None)
            && (!told || c.RegisterUser? || c.DisableUser? ==> JarAfter(s, tx) == s.jar)
  {
  }

  ghost predicate Possible(cfg: Setup, w: World, s: Browser, e: Event) {
    match e
    case Ask(t) => t < cfg.tabs
    case Grant(t) => TabOf(s, t).Queued? && (cfg.locking ==> forall o | o in s.tabs :: !Busy(s.tabs[o]))
    case Present(t, tx, c) =>
      && TabOf(s, t).Sent? && c.RotateToken? && TabOf(s, t).cookie == Some(c.oldJti) && c.nextJti in w.own
      && Enabled(w.iss, s.sys, Begin(tx, c))
    case Reject(t) => TabOf(s, t).Sent?
    case Deliver(t) => TabOf(s, t).Rejected? || (TabOf(s, t).Running? && TabOf(s, t).tx !in s.sys.txs)
    case Own(tx, c) =>
      !c.RotateToken? && (c.StoreToken? ==> c.jti in w.own) && Enabled(w.iss, s.sys, Begin(tx, c))
    case Receive(tx) => tx in s.waiting && tx !in s.sys.txs
    case Foreign(tx, c) => (c.RotateToken? ==> c.oldJti !in w.own) && Enabled(w.iss, s.sys, Begin(tx, c))
    case Serve(a) => !a.Begin? && Enabled(w.iss, s.sys, a)
  }

  ghost function Step(cfg: Setup, w: World, s: Browser, e: Event): Browser
    requires Possible(cfg, w, s, e)
  {
    match e
    // A caller joins the refresh under way, if there is one.
    case Ask(t) => if TabOf(s, t).Idle? then s.(tabs := s.tabs[t := Queued]) else s
    // The callback runs: the request leaves with the cookie of this moment.
    case Grant(t) => s.(tabs := s.tabs[t := Sent(s.jar)])
    case Present(t, tx, c) => s.(sys := Do(w.iss, s.sys, Begin(tx, c)), tabs := s.tabs[t := Running(tx)])
    // No cookie, or one that no longer parses: the handler clears it.
    case Reject(t) => s.(tabs := s.tabs[t := Rejected])
    case Deliver(t) =>
      s.(jar := if s.tabs[t].Rejected? then None else JarAfter(s, s.tabs[t].tx), tabs := s.tabs[t := Idle])
    case Own(tx, c) => s.(sys := Do(w.iss, s.sys, Begin(tx, c)), waiting := s.waiting + {tx})
    case Receive(tx) => s.(jar := JarAfter(s, tx), waiting := s.waiting - {tx})
    case Foreign(tx, c) => s.(sys := Do(w.iss, s.sys, Begin(tx, c)))
    case Serve(a) => s.(sys := Do(w.iss, s.sys, a))
  }

  ghost predicate Runs(cfg: Setup, w: World, events: seq<Event>)
    decreases |events|, 0
  {
    events != [] ==>
      var init := events[..|events| - 1];
      Runs(cfg, w, init) && Possible(cfg, w, Final(cfg, w, init), events[|events| - 1])
  }

  ghost function Final(cfg: Setup, w: World, events: seq<Event>): Browser
    requires Runs(cfg, w, events)
    decreases |events|, 1
  {
    if events == [] then CLOSED
    else Step(cfg, w, Final(cfg, w, events[..|events| - 1]), events[|events| - 1])
  }

  // ---------- the server's part of a run ----------

  ghost predicate Reachable(iss: Issuer, sys: System) {
    exists actions :: Runnable(iss, actions) && Reached(iss, actions) == sys
  }

  lemma ReachableDoes(iss: Issuer, sys: System, a: Action)
    requires Reachable(iss, sys) && Enabled(iss, sys, a)
    ensures Reachable(iss, Do(iss, sys, a))
  {
    var actions :| Runnable(iss, actions) && Reached(iss, actions) == sys;
    var more := actions + [a];
    assert more[..|more| - 1] == actions;
    assert Reached(iss, more) == Do(iss, sys, a);
  }

  lemma ReachableIsSound(iss: Issuer, sys: System)
    requires Reachable(iss, sys)
    ensures LocksOk(iss, sys) && LogMatches(sys)
  {
    var actions :| Runnable(iss, actions) && Reached(iss, actions) == sys;
    ReachedInvariant(iss, actions);
  }

  // ---------- what a coordinated run keeps ----------

  /** The transaction was told that it stored `j`. */
  ghost predicate Brought(sys: System, tx: nat, j: string) {
    tx in sys.asked && tx in sys.replies && sys.replies[tx].Ok? && Brings(sys.asked[tx].call) == Some(j)
  }

  /** A rotation of `j` that is open, or was told that it succeeded. */
  ghost predicate Spends(sys: System, tx: nat, j: string) {
    && tx in sys.asked && sys.asked[tx].call.RotateToken? && sys.asked[tx].call.oldJti == j
    && (tx in sys.txs || (tx in sys.replies && sys.replies[tx].Ok?))
  }

  ghost predicate RunsInTab(s: Browser, tx: nat) {
    exists t :: t in s.tabs && s.tabs[t] == Running(tx)
  }

  /** The token of this browser was stored, and the reply with it has arrived. */
  ghost predicate Held(w: World, s: Browser, j: string) {
    j in w.own && exists tx :: Brought(s.sys, tx, j) && tx !in s.waiting && !RunsInTab(s, tx)
  }

  ghost predicate OwnRotation(w: World, sys: System, tx: nat) {
    tx in sys.asked && sys.asked[tx].call.RotateToken? && sys.asked[tx].call.oldJti in w.own
  }

  ghost predicate OneBusy(cfg: Setup, s: Browser) {
    && (forall t | t in s.tabs :: t < cfg.tabs)
    && (forall t, o | t in s.tabs && o in s.tabs && Busy(s.tabs[t]) && Busy(s.tabs[o]) :: t == o)
  }

  /** What a transaction of a tab, and one that is waited for, may be. */
  ghost predicate Waits(w: World, s: Browser) {
    && (forall t | t in s.tabs && s.tabs[t].Running? ::
          OwnRotation(w, s.sys, s.tabs[t].tx) && s.sys.asked[s.tabs[t].tx].call.nextJti in w.own)
    && (forall tx | tx in s.waiting ::
          && tx in s.sys.asked && !s.sys.asked[tx].call.RotateToken?
          && (s.sys.asked[tx].call.StoreToken? ==> s.sys.asked[tx].call.jti in w.own))
  }

  /** Whatever of this browser's tokens was presented had arrived, and what is open runs in a tab. */
  ghost predicate Presented(w: World, s: Browser) {
    && (forall tx {:trigger OwnRotation(w, s.sys, tx)} | OwnRotation(w, s.sys, tx) ::
          Held(w, s, s.sys.asked[tx].call.oldJti) && (tx in s.sys.txs ==> RunsInTab(s, tx)))
    && (forall t | t in s.tabs && s.tabs[t].Sent? && s.tabs[t].cookie.Some? :: Held(w, s, s.tabs[t].cookie.value))
    && (s.jar.Some? ==> Held(w, s, s.jar.value))
  }

  /** The jar's token is spent only by a rotation in a tab, a sent one not at all, a running one by itself. */
  ghost predicate Unspent(s: Browser) {
    && (s.jar.Some? ==> forall tx | Spends(s.sys, tx, s.jar.value) :: RunsInTab(s, tx))
    && (forall t, tx | t in s.tabs && s.tabs[t].Sent? && s.tabs[t].cookie.Some? ::
        !Spends(s.sys, tx, s.tabs[t].cookie.value))
    && (forall t, tx | t in s.tabs && s.tabs[t].Running? && s.tabs[t].tx in s.sys.asked &&
                       s.sys.asked[s.tabs[t].tx].call.RotateToken? &&
                       Spends(s.sys, tx, s.sys.asked[s.tabs[t].tx].call.oldJti) ::
          tx == s.tabs[t].tx)
  }

  /** No rotation of this browser's tokens was answered with a replay. */
  ghost predicate NoReplay(w: World, sys: System) {
    forall tx {:trigger OwnRotation(w, sys, tx)} | OwnRotation(w, sys, tx) && tx in sys.replies ::
        !sys.replies[tx].TokenReplay?
  }

  ghost predicate Honest(cfg: Setup, w: World, s: Browser) {
    && Reachable(w.iss, s.sys) && LogMatches(s.sys)
    && OneBusy(cfg, s) && Waits(w, s) && Presented(w, s) && Unspent(s) && NoReplay(w, s.sys)
  }

  ghost predicate Coordinated(cfg: Setup) {
    cfg.locking || cfg.tabs <= 1
  }

  /** Whoever wins the token of an open rotation of a tab is that rotation itself. */
  lemma NewReplayIsImpossible(cfg: Setup, w: World, s: Browser, sys': System, tx: nat)
    requires Honest(cfg, w, s) && OwnRotation(w, s.sys, tx) && Reachable(w.iss, sys')
    requires sys'.asked == s.sys.asked && tx in sys'.replies
    requires forall t | t in sys'.replies && t !in s.sys.replies :: t in s.sys.txs
    requires forall t | t in s.sys.replies :: t in sys'.replies && sys'.replies[t] == s.sys.replies[t]
    ensures !sys'.replies[tx].TokenReplay?
  {
    if sys'.replies[tx].TokenReplay? {
      var j := s.sys.asked[tx].call.oldJti;
      assert tx in s.sys.txs;
      var t :| t in s.tabs && s.tabs[t] == Running(tx);
      var actions :| Runnable(w.iss, actions) && Reached(w.iss, actions) == sys';
      var u, d := ReplayHasWinner(w.iss, actions, tx, s.sys.asked[tx].call);
      assert Spends(s.sys, u, j);
      assert false;
    }
  }

  // ---------- the server's steps ----------

  lemma ServeKeepsFacts(iss: Issuer, sys: System, a: Action)
    requires LogMatches(sys) && Enabled(iss, sys, a) && !a.Begin?
    ensures var sys' := Do(iss, sys, a);
            && sys'.asked == sys.asked && sys'.txs.Keys <= sys.txs.Keys
            && (forall t | t in sys.replies :: t in sys'.replies && sys'.replies[t] == sys.replies[t])
            && (forall t | t in sys'.replies && t !in sys.replies :: t in sys.txs && t !in sys'.txs)
  {
  }

  lemma ServeKeepsHonest(cfg: Setup, w: World, s: Browser, a: Action)
    requires Honest(cfg, w, s) && Possible(cfg, w, s, Serve(a))
    ensures Honest(cfg, w, Step(cfg, w, s, Serve(a)))
  {
    var s' := Step(cfg, w, s, Serve(a));
    ReachableDoes(w.iss, s.sys, a);
    ReachableIsSound(w.iss, s'.sys);
    ServeKeepsFacts(w.iss, s.sys, a);
    forall tx, j | Spends(s'.sys, tx, j)
      ensures Spends(s.sys, tx, j)
    {
    }
    forall j | Held(w, s, j)
      ensures Held(w, s', j)
    {
      var tx :| Brought(s.sys, tx, j) && tx !in s.waiting && !RunsInTab(s, tx);
      assert Brought(s'.sys, tx, j) && !RunsInTab(s', tx);
    }
    forall tx | OwnRotation(w, s'.sys, tx)
      ensures Held(w, s', s'.sys.asked[tx].call.oldJti) && (tx in s'.sys.txs ==> RunsInTab(s', tx))
      ensures tx in s'.sys.replies ==> !s'.sys.replies[tx].TokenReplay?
    {
      assert OwnRotation(w, s.sys, tx);
      if tx in s'.sys.replies && s'.sys.replies[tx].TokenReplay? {
        NewReplayIsImpossible(cfg, w, s, s'.sys, tx);
      }
    }
  }

  // ---------- a transaction begins ----------

  lemma BeginFacts(iss: Issuer, sys: System, tx: nat, c: Call)
    requires Reachable(iss, sys) && LogMatches(sys) && Enabled(iss, sys, Begin(tx, c))
    ensures var sys' := Do(iss, sys, Begin(tx, c));
            && Reachable(iss, sys') && LogMatches(sys')
            && tx !in sys.asked && tx !in sys.txs && tx !in sys.replies && sys'.replies == sys.replies
            && sys'.asked == sys.asked[tx := Request(c, sys.replies.Keys)] && sys'.txs.Keys == sys.txs.Keys + {tx}
  {
    ReachableDoes(iss, sys, Begin(tx, c));
    ReachableIsSound(iss, Do(iss, sys, Begin(tx, c)));
  }

  /** What had arrived has still arrived. */
  lemma BeginKeepsHeld(w: World, s: Browser, s': Browser, tx: nat, c: Call, j: string)
    requires Held(w, s, j) && tx !in s.sys.replies && s'.sys.replies == s.sys.replies
    requires s'.sys.asked == s.sys.asked[tx := Request(c, s.sys.replies.Keys)]
    requires s'.waiting <= s.waiting + {tx}
    requires forall t | t in s'.tabs && s'.tabs[t].Running? ::
               s'.tabs[t].tx == tx || (t in s.tabs && s.tabs[t] == s'.tabs[t])
    ensures Held(w, s', j)
  {
    var u :| Brought(s.sys, u, j) && u !in s.waiting && !RunsInTab(s, u);
    assert Brought(s'.sys, u, j);
    assert !RunsInTab(s', u);
  }

  /** The next state after a transaction begins that presents none of this browser's tokens. */
  ghost predicate Newcomer(w: World, s: Browser, s': Browser, tx: nat, c: Call) {
    && (c.RotateToken? ==> c.oldJti !in w.own)
    && tx !in s.sys.asked && tx !in s.sys.txs && tx !in s.sys.replies && s'.sys.replies == s.sys.replies
    && s'.sys.asked == s.sys.asked[tx := Request(c, s.sys.replies.Keys)] && s'.sys.txs.Keys == s.sys.txs.Keys + {tx}
    && s'.jar == s.jar && s'.tabs == s.tabs
    && (s'.waiting == s.waiting ||
        (s'.waiting == s.waiting + {tx} && !c.RotateToken? && (c.StoreToken? ==> c.jti in w.own)))
  }

  lemma NewcomerKeepsPresented(cfg: Setup, w: World, s: Browser, s': Browser, tx: nat, c: Call)
    requires Presented(w, s) && NoReplay(w, s.sys) && Newcomer(w, s, s', tx, c)
    ensures Presented(w, s') && NoReplay(w, s'.sys)
  {
    forall j | Held(w, s, j)
      ensures Held(w, s', j)
    {
      BeginKeepsHeld(w, s, s', tx, c, j);
    }
    forall u | OwnRotation(w, s'.sys, u)
      ensures Held(w, s', s'.sys.asked[u].call.oldJti) && (u in s'.sys.txs ==> RunsInTab(s', u))
      ensures OwnRotation(w, s.sys, u)
    {
      assert OwnRotation(w, s.sys, u);
      assert RunsInTab(s, u) ==> RunsInTab(s', u);
    }
  }

  lemma NewcomerKeepsUnspent(w: World, s: Browser, s': Browser, tx: nat, c: Call)
    requires Waits(w, s) && Presented(w, s) && Unspent(s) && Newcomer(w, s, s', tx, c)
    ensures Waits(w, s') && Unspent(s')
  {
    forall u, j | Spends(s'.sys, u, j) && j in w.own
      ensures Spends(s.sys, u, j)
    {
    }
    forall u | RunsInTab(s, u)
      ensures RunsInTab(s', u)
    {
    }
  }

  lemma NewcomerKeepsHonest(cfg: Setup, w: World, s: Browser, s': Browser, tx: nat, c: Call)
    requires Honest(cfg, w, s) && Newcomer(w, s, s', tx, c)
    requires Reachable(w.iss, s'.sys) && LogMatches(s'.sys)
    ensures Honest(cfg, w, s')
  {
    NewcomerKeepsPresented(cfg, w, s, s', tx, c);
    NewcomerKeepsUnspent(w, s, s', tx, c);
  }

  lemma OwnKeepsHonest(cfg: Setup, w: World, s: Browser, tx: nat, c: Call)
    requires Honest(cfg, w, s) && Possible(cfg, w, s, Own(tx, c))
    ensures Honest(cfg, w, Step(cfg, w, s, Own(tx, c)))
  {
    BeginFacts(w.iss, s.sys, tx, c);
    NewcomerKeepsHonest(cfg, w, s, Step(cfg, w, s, Own(tx, c)), tx, c);
  }

  lemma ForeignKeepsHonest(cfg: Setup, w: World, s: Browser, tx: nat, c: Call)
    requires Honest(cfg, w, s) && Possible(cfg, w, s, Foreign(tx, c))
    ensures Honest(cfg, w, Step(cfg, w, s, Foreign(tx, c)))
  {
    BeginFacts(w.iss, s.sys, tx, c);
    NewcomerKeepsHonest(cfg, w, s, Step(cfg, w, s, Foreign(tx, c)), tx, c);
  }

  /** The next state after a tab's rotation begins. */
  ghost predicate Presents(w: World, s: Browser, s': Browser, t: nat, tx: nat, c: Call) {
    && c.RotateToken? && t in s.tabs && s.tabs[t] == Sent(Some(c.oldJti)) && c.nextJti in w.own
    && tx !in s.sys.asked && tx !in s.sys.txs && tx !in s.sys.replies && s'.sys.replies == s.sys.replies
    && s'.sys.asked == s.sys.asked[tx := Request(c, s.sys.replies.Keys)] && s'.sys.txs.Keys == s.sys.txs.Keys + {tx}
    && s'.jar == s.jar && s'.tabs == s.tabs[t := Running(tx)] && s'.waiting == s.waiting
  }

  /** While one tab has sent its cookie none waits for a rotation. */
  lemma NoneRuns(cfg: Setup, s: Browser, t: nat)
    requires OneBusy(cfg, s) && t in s.tabs && s.tabs[t].Sent?
    ensures forall u :: !RunsInTab(s, u)
  {
  }

  lemma PresentKeepsPresented(cfg: Setup, w: World, s: Browser, s': Browser, t: nat, tx: nat, c: Call)
    requires OneBusy(cfg, s) && Presented(w, s) && NoReplay(w, s.sys) && Presents(w, s, s', t, tx, c)
    ensures Presented(w, s') && NoReplay(w, s'.sys)
  {
    NoneRuns(cfg, s, t);
    forall j | Held(w, s, j)
      ensures Held(w, s', j)
    {
      BeginKeepsHeld(w, s, s', tx, c, j);
    }
    assert s'.tabs[t] == Running(tx);
    forall u | OwnRotation(w, s'.sys, u)
      ensures Held(w, s', s'.sys.asked[u].call.oldJti) && (u in s'.sys.txs ==> RunsInTab(s', u))
      ensures u == tx || OwnRotation(w, s.sys, u)
    {
      assert u == tx || OwnRotation(w, s.sys, u);
    }
  }

  lemma PresentKeepsUnspent(cfg: Setup, w: World, s: Browser, s': Browser, t: nat, tx: nat, c: Call)
    requires OneBusy(cfg, s) && Waits(w, s) && Presented(w, s) && Unspent(s) && Presents(w, s, s', t, tx, c)
    ensures OneBusy(cfg, s') && Waits(w, s') && Unspent(s')
  {
    NoneRuns(cfg, s, t);
    assert s'.tabs[t] == Running(tx);
    forall u, j | Spends(s'.sys, u, j)
      ensures u == tx || Spends(s.sys, u, j)
    {
    }
  }

  lemma PresentKeepsHonest(cfg: Setup, w: World, s: Browser, t: nat, tx: nat, c: Call)
    requires Honest(cfg, w, s) && Possible(cfg, w, s, Present(t, tx, c))
    ensures Honest(cfg, w, Step(cfg, w, s, Present(t, tx, c)))
  {
    var s' := Step(cfg, w, s, Present(t, tx, c));
    BeginFacts(w.iss, s.sys, tx, c);
    PresentKeepsPresented(cfg, w, s, s', t, tx, c);
    PresentKeepsUnspent(cfg, w, s, s', t, tx, c);
  }

  // ---------- a reply arrives ----------

  /** Nobody has presented a token whose reply is still on its way. */
  lemma NewTokenIsUnspent(w: World, s: Browser, tx: nat, k: string)
    requires Reachable(w.iss, s.sys) && Presented(w, s) && k in w.own
    requires Brought(s.sys, tx, k) && (tx in s.waiting || RunsInTab(s, tx))
    ensures forall u :: !Spends(s.sys, u, k)
  {
    forall u
      ensures !Spends(s.sys, u, k)
    {
      if Spends(s.sys, u, k) {
        assert OwnRotation(w, s.sys, u);
        var v :| Brought(s.sys, v, k) && v !in s.waiting && !RunsInTab(s, v);
        var actions :| Runnable(w.iss, actions) && Reached(w.iss, actions) == s.sys;
        OneInsertWins(w.iss, actions, tx, s.sys.asked[tx].call, v, s.sys.asked[v].call);
      }
    }
  }

  /** The next state after the reply of `tx`, or word that it was rolled back, arrives. */
  ghost predicate Arrives(s: Browser, s': Browser, tx: nat) {
    && s'.sys == s.sys && tx !in s.sys.txs && s'.jar == JarAfter(s, tx)
    && s'.waiting == s.waiting - {tx}
    && (forall t | t in s'.tabs ::
        t in s.tabs && (s'.tabs[t] == s.tabs[t] || (s'.tabs[t].Idle? && s.tabs[t] == Running(tx))))
    && (forall t | t in s.tabs && s.tabs[t] != Running(tx) :: t in s'.tabs && s'.tabs[t] == s.tabs[t])
    && !RunsInTab(s', tx)
  }

  lemma ArrivalKeepsHeld(w: World, s: Browser, s': Browser, tx: nat, j: string)
    requires Arrives(s, s', tx) && Held(w, s, j)
    ensures Held(w, s', j)
  {
    var u :| Brought(s.sys, u, j) && u !in s.waiting && !RunsInTab(s, u);
    assert !RunsInTab(s', u);
  }

  /** The reply puts a token of this browser into the jar, or it puts none. */
  lemma NewJar(w: World, s: Browser, s': Browser, tx: nat)
    requires Arrives(s, s', tx) && Waits(w, s) && (tx in s.waiting || RunsInTab(s, tx))
    ensures || (s'.jar.Some? && s'.jar.value in w.own && Brought(s.sys, tx, s'.jar.value))
            || ((s'.jar == s.jar || s'.jar.None?) && forall j :: !Spends(s.sys, tx, j))
  {
  }

  /** Every rotation but the one whose reply arrives goes on in its tab. */
  lemma OthersGoOn(s: Browser, s': Browser, tx: nat)
    requires Arrives(s, s', tx)
    ensures forall u | u != tx && RunsInTab(s, u) :: RunsInTab(s', u)
  {
    forall u | u != tx && RunsInTab(s, u)
      ensures RunsInTab(s', u)
    {
      var t :| t in s.tabs && s.tabs[t] == Running(u);
      assert s'.tabs[t] == Running(u);
    }
  }

  lemma ArrivalKeepsPresented(cfg: Setup, w: World, s: Browser, s': Browser, tx: nat)
    requires Arrives(s, s', tx) && Waits(w, s) && Presented(w, s) && (tx in s.waiting || RunsInTab(s, tx))
    ensures Presented(w, s')
  {
    NewJar(w, s, s', tx);
    assert s'.jar.Some? && Brought(s.sys, tx, s'.jar.value) && s'.jar.value in w.own ==> Held(w, s', s'.jar.value);
    forall j | Held(w, s, j)
      ensures Held(w, s', j)
    {
      ArrivalKeepsHeld(w, s, s', tx, j);
    }
    OthersGoOn(s, s', tx);
  }

  lemma ArrivalKeepsJar(w: World, s: Browser, s': Browser, tx: nat)
    requires Reachable(w.iss, s.sys) && Waits(w, s) && Presented(w, s) && Unspent(s)
    requires Arrives(s, s', tx) && (tx in s.waiting || RunsInTab(s, tx))
    ensures s'.jar.Some? ==> forall u | Spends(s'.sys, u, s'.jar.value) :: RunsInTab(s', u)
  {
    NewJar(w, s, s', tx);
    if s'.jar.Some? && s'.jar.value in w.own && Brought(s.sys, tx, s'.jar.value) {
      NewTokenIsUnspent(w, s, tx, s'.jar.value);
    } else {
      OthersGoOn(s, s', tx);
    }
  }

  lemma ArrivalKeepsUnspent(cfg: Setup, w: World, s: Browser, s': Browser, tx: nat)
    requires OneBusy(cfg, s) && Reachable(w.iss, s.sys) && Waits(w, s) && Presented(w, s) && Unspent(s)
    requires Arrives(s, s', tx) && (tx in s.waiting || RunsInTab(s, tx))
    ensures OneBusy(cfg, s') && Waits(w, s') && Unspent(s')
  {
    ArrivalKeepsJar(w, s, s', tx);
  }

  lemma ReceiveKeepsHonest(cfg: Setup, w: World, s: Browser, tx: nat)
    requires Honest(cfg, w, s) && Possible(cfg, w, s, Receive(tx))
    ensures Honest(cfg, w, Step(cfg, w, s, Receive(tx)))
  {
    var s' := Step(cfg, w, s, Receive(tx));
    assert Arrives(s, s', tx);
    ArrivalKeepsPresented(cfg, w, s, s', tx);
    ArrivalKeepsUnspent(cfg, w, s, s', tx);
  }

  lemma DeliveryArrives(cfg: Setup, w: World, s: Browser, t: nat)
    requires OneBusy(cfg, s) && Waits(w, s) && Possible(cfg, w, s, Deliver(t)) && s.tabs[t].Running?
    ensures Arrives(s, Step(cfg, w, s, Deliver(t)), s.tabs[t].tx) && RunsInTab(s, s.tabs[t].tx)
  {
    assert s.tabs[t].tx !in s.waiting;
  }

  /** The next state after a tab moves without gaining or losing a rotation, or sending a cookie. */
  ghost predicate Moves(s: Browser, s': Browser, t: nat) {
    && s'.sys == s.sys && s'.waiting == s.waiting && (s'.jar == s.jar || s'.jar.None?)
    && t in s'.tabs && s'.tabs == s.tabs[t := s'.tabs[t]] && !s'.tabs[t].Running? && !s'.tabs[t].Sent?
    && !TabOf(s, t).Running? && (Busy(s'.tabs[t]) ==> Busy(TabOf(s, t)))
  }

  /** With the same replies and waiting, and no more rotations in tabs, what had arrived has arrived. */
  lemma HeldStays(w: World, s: Browser, s': Browser)
    requires s'.sys == s.sys && s'.waiting == s.waiting
    requires forall u | RunsInTab(s', u) :: RunsInTab(s, u)
    ensures forall j | Held(w, s, j) :: Held(w, s', j)
  {
    forall j | Held(w, s, j)
      ensures Held(w, s', j)
    {
      var u :| Brought(s.sys, u, j) && u !in s.waiting && !RunsInTab(s, u);
      assert !RunsInTab(s', u);
    }
  }

  lemma SameRunners(s: Browser, s': Browser, t: nat)
    requires t in s'.tabs && s'.tabs == s.tabs[t := s'.tabs[t]] && !s'.tabs[t].Running? && !TabOf(s, t).Running?
    ensures forall u :: RunsInTab(s, u) <==> RunsInTab(s', u)
  {
    forall u
      ensures RunsInTab(s, u) <==> RunsInTab(s', u)
    {
      if RunsInTab(s, u) {
        var o :| o in s.tabs && s.tabs[o] == Running(u);
        assert s'.tabs[o] == Running(u);
      }
    }
  }

  lemma MoveKeepsPresented(w: World, s: Browser, s': Browser, t: nat)
    requires Presented(w, s) && Moves(s, s', t)
    ensures Presented(w, s')
  {
    SameRunners(s, s', t);
    HeldStays(w, s, s');
  }

  lemma MoveKeepsUnspent(cfg: Setup, w: World, s: Browser, s': Browser, t: nat)
    requires OneBusy(cfg, s) && Waits(w, s) && Unspent(s) && Moves(s, s', t) && t < cfg.tabs
    ensures OneBusy(cfg, s') && Waits(w, s') && Unspent(s')
  {
    SameRunners(s, s', t);
  }

  lemma TabKeepsHonest(cfg: Setup, w: World, s: Browser, s': Browser, t: nat)
    requires Honest(cfg, w, s) && t < cfg.tabs && Moves(s, s', t)
    ensures Honest(cfg, w, s')
  {
    MoveKeepsPresented(w, s, s', t);
    MoveKeepsUnspent(cfg, w, s, s', t);
  }

  lemma DeliverKeepsHonest(cfg: Setup, w: World, s: Browser, t: nat)
    requires Honest(cfg, w, s) && Possible(cfg, w, s, Deliver(t))
    ensures Honest(cfg, w, Step(cfg, w, s, Deliver(t)))
  {
    var s' := Step(cfg, w, s, Deliver(t));
    if s.tabs[t].Running? {
      DeliveryArrives(cfg, w, s, t);
      ArrivalKeepsPresented(cfg, w, s, s', s.tabs[t].tx);
      ArrivalKeepsUnspent(cfg, w, s, s', s.tabs[t].tx);
    } else {
      TabKeepsHonest(cfg, w, s, s', t);
    }
  }

  lemma NoneIsBusy(cfg: Setup, s: Browser, t: nat)
    requires Coordinated(cfg) && OneBusy(cfg, s) && TabOf(s, t).Queued?
    requires cfg.locking ==> forall o | o in s.tabs :: !Busy(s.tabs[o])
    ensures forall o | o in s.tabs :: !Busy(s.tabs[o])
    ensures forall u :: !RunsInTab(s, u)
  {
    assert t in s.tabs;
  }

  lemma GrantKeepsPresented(w: World, s: Browser, s': Browser, t: nat)
    requires Presented(w, s) && s' == s.(tabs := s.tabs[t := Sent(s.jar)])
    requires forall u :: !RunsInTab(s, u)
    ensures Presented(w, s')
  {
    assert forall u :: !RunsInTab(s', u) by {
      forall u
        ensures !RunsInTab(s', u)
      {
        assert !RunsInTab(s, u);
      }
    }
    HeldStays(w, s, s');
  }

  lemma GrantKeepsUnspent(cfg: Setup, w: World, s: Browser, s': Browser, t: nat)
    requires OneBusy(cfg, s) && Waits(w, s) && Unspent(s) && t in s.tabs && s' == s.(tabs := s.tabs[t := Sent(s.jar)])
    requires (forall o | o in s.tabs :: !Busy(s.tabs[o])) && forall u :: !RunsInTab(s, u)
    ensures OneBusy(cfg, s') && Waits(w, s') && Unspent(s')
  {
    assert s.jar.Some? ==> forall u :: !Spends(s.sys, u, s.jar.value);
  }

  lemma GrantKeepsHonest(cfg: Setup, w: World, s: Browser, t: nat)
    requires Coordinated(cfg) && Honest(cfg, w, s) && Possible(cfg, w, s, Grant(t))
    ensures Honest(cfg, w, Step(cfg, w, s, Grant(t)))
  {
    var s' := Step(cfg, w, s, Grant(t));
    NoneIsBusy(cfg, s, t);
    GrantKeepsPresented(w, s, s', t);
    GrantKeepsUnspent(cfg, w, s, s', t);
  }

  lemma StepKeepsHonest(cfg: Setup, w: World, s: Browser, e: Event)
    requires Coordinated(cfg) && Honest(cfg, w, s) && Possible(cfg, w, s, e)
    ensures Honest(cfg, w, Step(cfg, w, s, e))
  {
    match e
    case Ask(t) =>
      if TabOf(s, t).Idle? {
        TabKeepsHonest(cfg, w, s, Step(cfg, w, s, e), t);
      }
    case Grant(t) => GrantKeepsHonest(cfg, w, s, t);
    case Present(t, tx, c) => PresentKeepsHonest(cfg, w, s, t, tx, c);
    case Reject(t) => TabKeepsHonest(cfg, w, s, Step(cfg, w, s, e), t);
    case Deliver(t) => DeliverKeepsHonest(cfg, w, s, t);
    case Own(tx, c) => OwnKeepsHonest(cfg, w, s, tx, c);
    case Receive(tx) => ReceiveKeepsHonest(cfg, w, s, tx);
    case Foreign(tx, c) => ForeignKeepsHonest(cfg, w, s, tx, c);
    case Serve(a) => ServeKeepsHonest(cfg, w, s, a);
  }

  lemma {:induction false} RunsAreHonest(cfg: Setup, w: World, events: seq<Event>)
    requires Coordinated(cfg) && Runs(cfg, w, events)
    ensures Honest(cfg, w, Final(cfg, w, events))
  {
    if events == [] {
      assert Runnable(w.iss, []) && Reached(w.iss, []) == IDLE;
      ReachableIsSound(w.iss, IDLE);
    } else {
      var init := events[..|events| - 1];
      RunsAreHonest(cfg, w, init);
      StepKeepsHonest(cfg, w, Final(cfg, w, init), events[|events| - 1]);
    }
  }

  /** The cookie a coordinated tab has sent is committed and not rotated until its own rotation answers. */
  lemma SentCookieIsFresh(cfg: Setup, w: World, events: seq<Event>, t: nat, j: string)
    requires Coordinated(cfg) && Runs(cfg, w, events)
    requires var s := Final(cfg, w, events);
             || TabOf(s, t) == Sent(Some(j))
             || (TabOf(s, t).Running? && TabOf(s, t).tx in s.sys.txs && TabOf(s, t).tx in s.sys.asked &&
                 s.sys.asked[TabOf(s, t).tx].call.RotateToken? && s.sys.asked[TabOf(s, t).tx].call.oldJti == j)
    ensures var tokens := Final(cfg, w, events).sys.committed.tokens;
            j in tokens && !IsRotated(tokens, j)
  {
    RunsAreHonest(cfg, w, events);
    var s := Final(cfg, w, events);
    assert Held(w, s, j) by {
      if s.tabs[t].Running? {
        assert OwnRotation(w, s.sys, s.tabs[t].tx);
      }
    }
    var tx :| Brought(s.sys, tx, j) && tx !in s.waiting && !RunsInTab(s, tx);
    var actions :| Runnable(w.iss, actions) && Reached(w.iss, actions) == s.sys;
    UnrotatedIsCommitted(w.iss, actions, tx, s.sys.asked[tx].call);
    if IsRotated(s.sys.committed.tokens, j) {
      var u, d :| Answered(s.sys, u, d, Ok) && d.RotateToken? && d.oldJti == j;
      assert Spends(s.sys, u, j);
      assert false;
    }
  }

  // ---------- without coordination ----------

  ghost predicate CanReach(cfg: Setup, w: World, s: Browser) {
    Reachable(w.iss, s.sys) && exists events :: Runs(cfg, w, events) && Final(cfg, w, events) == s
  }

  lemma Next(cfg: Setup, w: World, s: Browser, e: Event) returns (s': Browser)
    requires CanReach(cfg, w, s) && Possible(cfg, w, s, e)
    ensures s' == Step(cfg, w, s, e) && CanReach(cfg, w, s')
  {
    var events :| Runs(cfg, w, events) && Final(cfg, w, events) == s;
    var more := events + [e];
    assert more[..|more| - 1] == events;
    s' := Final(cfg, w, more);
    match e
    case Present(_, tx, c) => ReachableDoes(w.iss, s.sys, Begin(tx, c));
    case Own(tx, c) => ReachableDoes(w.iss, s.sys, Begin(tx, c));
    case Foreign(tx, c) => ReachableDoes(w.iss, s.sys, Begin(tx, c));
    case Serve(a) => ReachableDoes(w.iss, s.sys, a);
    case _ =>
  }

  /** Only the server has moved. */
  ghost predicate SameTabs(s: Browser, s': Browser) {
    s'.jar == s.jar && s'.tabs == s.tabs && s'.waiting == s.waiting && s'.sys.asked == s.sys.asked
  }

  /** A transaction with nothing beside it answers as the call alone does. */
  lemma RunOut(cfg: Setup, w: World, s: Browser, t: nat) returns (s': Browser)
    requires w.iss.WellFormed() && CanReach(cfg, w, s) && s.sys.txs.Keys == {t} && !s.sys.txs[t].stage.Finished?
    ensures CanReach(cfg, w, s') && SameTabs(s, s') && s'.sys.txs == map[]
    ensures var (db, answer) := Apply(s.sys.committed, s.sys.txs[t].call);
            s'.sys.committed == db && s'.sys.replies == s.sys.replies[t := answer]
    decreases StatementsLeft(s.sys.txs[t].stage)
  {
    ReachableIsSound(w.iss, s.sys);
    AloneMoves(w.iss, s.sys, t);
    StatementAdvances(s.sys, t);
    if Statement(s.sys, t).value.stage.Finished? {
      LastAlone(w.iss, s.sys, t);
      s' := Next(cfg, w, s, Serve(Execute(t)));
      s' := Next(cfg, w, s', Serve(Commit(t)));
    } else {
      s' := Next(cfg, w, s, Serve(Execute(t)));
      s' := RunOut(cfg, w, s', t);
    }
  }

  /** The transaction that an event begins, and its call. */
  ghost predicate Begins(e: Event, tx: nat, c: Call) {
    (e.Present? || e.Own? || e.Foreign?) && e.tx == tx && e.call == c
  }

  /** While no transaction is open, one begins and runs to its end. */
  lemma RunAlone(cfg: Setup, w: World, s: Browser, e: Event, tx: nat, c: Call) returns (s': Browser)
    requires w.iss.WellFormed() && CanReach(cfg, w, s) && s.sys.txs == map[]
    requires Begins(e, tx, c) && Possible(cfg, w, s, e)
    ensures CanReach(cfg, w, s') && s'.(sys := s.sys) == Step(cfg, w, s, e).(sys := s.sys)
    ensures var (db, answer) := Apply(s.sys.committed, c);
            && s'.sys.txs == map[] && s'.sys.committed == db && s'.sys.replies == s.sys.replies[tx := answer]
            && s'.sys.asked == s.sys.asked[tx := Request(c, s.sys.replies.Keys)]
  {
    s' := Next(cfg, w, s, e);
    s' := RunOut(cfg, w, s', tx);
  }

  /** A registration, a login, and two rotations of the login's token that the handlers would make. */
  ghost predicate TwoRotations(iss: Issuer, register: Call, login: Call, first: Call, second: Call) {
    var registered := Apply(EMPTY, register).0;
    var before := Apply(registered, login).0;
    var after := Apply(before, first).0;
    && register.RegisterUser? && iss.Permits(EMPTY, register)
    && login.StoreToken? && iss.Permits(registered, login) && Apply(registered, login).1.Ok?
    && first.RotateToken? && first.oldJti == login.jti && iss.Permits(before, first) && Apply(before, first).1.Ok?
    && second.RotateToken? && second.oldJti == login.jti && iss.Permits(after, second)
    && Apply(after, second).1.TokenReplay?
  }

  function BothTabs(tab: Tab, other: Tab): map<nat, Tab> {
    map[0 := tab, 1 := other]
  }

  lemma StartClosed(cfg: Setup, w: World)
    ensures CanReach(cfg, w, CLOSED)
  {
    assert Runnable(w.iss, []) && Reached(w.iss, []) == IDLE;
    assert Runs(cfg, w, []) && Final(cfg, w, []) == CLOSED;
  }

  lemma Register(cfg: Setup, w: World, register: Call) returns (s: Browser)
    requires w.iss.WellFormed() && register.RegisterUser? && w.iss.Permits(EMPTY, register)
    ensures CanReach(cfg, w, s) && s.sys.txs == map[] && s.tabs == map[] && s.waiting == {} && s.jar.None?
    ensures s.sys.committed == Apply(EMPTY, register).0 && s.sys.asked.Keys == {0}
  {
    StartClosed(cfg, w);
    s := RunAlone(cfg, w, CLOSED, Foreign(0, register), 0, register);
  }

  lemma LogIn(cfg: Setup, w: World, register: Call, login: Call, first: Call, second: Call) returns (s: Browser)
    requires w.iss.WellFormed() && TwoRotations(w.iss, register, login, first, second) && login.jti in w.own
    ensures CanReach(cfg, w, s) && s.sys.txs == map[] && s.tabs == map[] && s.jar == Some(login.jti)
    ensures s.sys.committed == Apply(Apply(EMPTY, register).0, login).0 && s.sys.asked.Keys == {0, 1}
  {
    s := Register(cfg, w, register);
    s := RunAlone(cfg, w, s, Own(1, login), 1, login);
    s := Next(cfg, w, s, Receive(1));
  }

  lemma SendTwice(cfg: Setup, w: World, s: Browser) returns (s': Browser)
    requires !Coordinated(cfg) && CanReach(cfg, w, s) && s.tabs == map[]
    ensures CanReach(cfg, w, s') && s' == s.(tabs := BothTabs(Sent(s.jar), Sent(s.jar)))
  {
    s' := Next(cfg, w, s, Ask(0));
    s' := Next(cfg, w, s', Grant(0));
    s' := Next(cfg, w, s', Ask(1));
    s' := Next(cfg, w, s', Grant(1));
  }

  /** A tab's rotation begins and runs to its end while no other transaction is open. */
  lemma RotateInTab(cfg: Setup, w: World, s: Browser, t: nat, tx: nat, c: Call) returns (s': Browser)
    requires w.iss.WellFormed() && CanReach(cfg, w, s) && s.sys.txs == map[] && tx !in s.sys.asked
    requires c.RotateToken? && c.nextJti in w.own && w.iss.Permits(s.sys.committed, c)
    requires t in s.tabs && s.tabs[t] == Sent(Some(c.oldJti))
    ensures CanReach(cfg, w, s') && s'.tabs == s.tabs[t := Running(tx)] && s'.sys.txs == map[] && s'.jar == s.jar
    ensures s'.sys.asked.Keys == s.sys.asked.Keys + {tx} && s'.sys.committed == Apply(s.sys.committed, c).0
    ensures Answered(s'.sys, tx, c, Apply(s.sys.committed, c).1)
  {
    s' := RunAlone(cfg, w, s, Present(t, tx, c), tx, c);
  }

  /** With nothing beside it a tab's refresh goes through: the successor is stored and ends in the jar. */
  lemma RefreshDelivers(cfg: Setup, w: World, s: Browser, t: nat, tx: nat, c: Call) returns (s': Browser)
    requires w.iss.WellFormed() && CanReach(cfg, w, s) && s.sys.txs == map[] && tx !in s.sys.asked
    requires t < cfg.tabs && TabOf(s, t).Idle? && forall o | o in s.tabs :: !Busy(s.tabs[o])
    requires c.RotateToken? && c.nextJti in w.own && w.iss.Permits(s.sys.committed, c)
    requires s.jar == Some(c.oldJti)
    ensures CanReach(cfg, w, s') && TabOf(s', t).Idle? && s'.sys.txs == map[]
    ensures var (db, answer) := Apply(s.sys.committed, c);
            && s'.sys.committed == db && Answered(s'.sys, tx, c, answer)
            && s'.jar == if answer == Ok then Some(c.nextJti) else s.jar
  {
    s' := Next(cfg, w, s, Ask(t));
    s' := Next(cfg, w, s', Grant(t));
    s' := RotateInTab(cfg, w, s', t, tx, c);
    JarFollowsReplies(s', tx, c);
    s' := Next(cfg, w, s', Deliver(t));
  }

  /** A cookie that the handler refuses is cleared. */
  lemma RejectedCookieIsCleared(cfg: Setup, w: World, s: Browser, t: nat) returns (s': Browser)
    requires CanReach(cfg, w, s) && t < cfg.tabs && TabOf(s, t).Idle? && forall o | o in s.tabs :: !Busy(s.tabs[o])
    ensures CanReach(cfg, w, s') && TabOf(s', t).Idle? && s'.sys == s.sys && s'.jar == None
  {
    s' := Next(cfg, w, s, Ask(t));
    s' := Next(cfg, w, s', Grant(t));
    s' := Next(cfg, w, s', Reject(t));
    s' := Next(cfg, w, s', Deliver(t));
  }

  /** Two tabs without the lock send the same cookie, and the second is taken for a replay. */
  lemma UncoordinatedReplays(cfg: Setup, w: World, register: Call, login: Call, first: Call, second: Call)
    returns (s: Browser)
    requires !Coordinated(cfg) && w.iss.WellFormed() && TwoRotations(w.iss, register, login, first, second)
    requires login.jti in w.own && first.nextJti in w.own && second.nextJti in w.own
    ensures CanReach(cfg, w, s) && !NoReplay(w, s.sys)
  {
    s := LogIn(cfg, w, register, login, first, second);
    s := SendTwice(cfg, w, s);
    s := RotateInTab(cfg, w, s, 0, 2, first);
    s := RotateInTab(cfg, w, s, 1, 3, second);
    assert OwnRotation(w, s.sys, 3);
  }

  // ---------- exactly when ----------

  /** One login, `a`, and two tokens signed to succeed it. */
  const ISSUER := Issuer(10, map[
    "a" := Claims(1, 1, "x", 0, None), "b" := Claims(1, 1, "y", 1, Some("a")), "c" := Claims(1, 1, "z", 1, Some("a"))])

  const REGISTER := RegisterUser(1, PasswordHash(0, ""))
  const LOGIN := StoreToken(1, "a", "a", "x", 10)
  const FIRST := RotateToken(1, 1, "a", "x", "b", "y", 11, Clock(2, 2, 2))
  const AGAIN := RotateToken(1, 1, "a", "x", "c", "z", 11, Clock(2, 2, 2))
  const REGISTERED := Database(map[1 := User(PasswordHash(0, ""), Active, 1)], map[])
  const LOGGED_IN := REGISTERED.(tokens := map["a" := NewRow(1, "a", "x", 10)])

  lemma ThreeTokensAreWellFormed(a: string, b: string, c: string, x: string, y: string, z: string)
    requires a != "" && b != "" && c != "" && a != b && a != c && b != c
    requires x != "" && y != "" && z != "" && x != y && x != z && y != z
    ensures Issuer(10, map[a := Claims(1, 1, x, 0, None), b := Claims(1, 1, y, 1, Some(a)),
                           c := Claims(1, 1, z, 1, Some(a))]).WellFormed()
  {
  }

  lemma ExampleIsWellFormed()
    ensures ISSUER.WellFormed()
  {
    ThreeTokensAreWellFormed("a", "b", "c", "x", "y", "z");
  }

  lemma ExampleIsSigned()
    ensures ISSUER.Sanctions(LOGIN) && ISSUER.Sanctions(FIRST) && ISSUER.Sanctions(AGAIN)
  {
  }

  lemma ExampleLogsIn()
    ensures Apply(EMPTY, REGISTER).0 == REGISTERED && Apply(REGISTERED, LOGIN) == (LOGGED_IN, Ok)
  {
  }

  lemma ExampleReplays()
    ensures Apply(LOGGED_IN, FIRST).1.Ok? && Apply(Apply(LOGGED_IN, FIRST).0, AGAIN).1.TokenReplay?
  {
    assert Insertable(LOGGED_IN.tokens, "b", "y");
    assert Apply(LOGGED_IN, FIRST).1.Ok?;
    IssueEffect(LOGGED_IN, FIRST);
    var db := Apply(LOGGED_IN, FIRST).0;
    assert db.users == LOGGED_IN.users;
    assert Judge(Lookup(db.tokens, "a"), AGAIN) == KillFamily("a");
  }

  lemma ExampleRotates()
    ensures ISSUER.WellFormed() && TwoRotations(ISSUER, REGISTER, LOGIN, FIRST, AGAIN)
  {
    ExampleIsWellFormed();
    ExampleIsSigned();
    ExampleLogsIn();
    ExampleReplays();
  }

  ghost predicate NeverReplays(cfg: Setup) {
    forall w: World, events | w.iss.WellFormed() && Runs(cfg, w, events) :: NoReplay(w, Final(cfg, w, events).sys)
  }

  lemma ReplayBreaks(cfg: Setup, w: World, s: Browser)
    requires w.iss.WellFormed() && CanReach(cfg, w, s) && !NoReplay(w, s.sys)
    ensures !NeverReplays(cfg)
  {
    var events :| Runs(cfg, w, events) && Final(cfg, w, events) == s;
  }

  lemma ExampleBreaks(cfg: Setup)
    requires !Coordinated(cfg)
    ensures !NeverReplays(cfg)
  {
    ExampleRotates();
    var w := World(ISSUER, {"a", "b", "c"});
    var s := UncoordinatedReplays(cfg, w, REGISTER, LOGIN, FIRST, AGAIN);
    ReplayBreaks(cfg, w, s);
  }

  /**
   In no interleaving of refreshes, logins, logouts and calls of other browsers is a rotation of this
   browser's tokens ever answered with a replay, exactly when the lock is there or it has one tab.
   */
  lemma CoordinationPreventsReplay(cfg: Setup)
    ensures NeverReplays(cfg) <==> cfg.locking || cfg.tabs <= 1
  {
    if Coordinated(cfg) {
      forall w: World, events | w.iss.WellFormed() && Runs(cfg, w, events)
        ensures NoReplay(w, Final(cfg, w, events).sys)
      {
        RunsAreHonest(cfg, w, events);
      }
    } else {
      ExampleBreaks(cfg);
    }
  }
}
