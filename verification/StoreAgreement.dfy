/** Sequences of store calls: what both stores answer, when they agree, and which calls leave no trace. */
module StoreAgreement {
  import opened SessionModel
  import opened AuthHistory
  import opened MemoryStores
  import opened RedisStores

  datatype StoreCall =
    | Revoke(jti: string, ttl: int)
    | AskRevoked(jti: string)
    | Check(account: string, ip: string, accountLimit: int, ipLimit: int, window: int)
    | Record(account: string, ip: string, accountLimit: int, ipLimit: int, window: int)
    | ResetAccount(account: string)

  datatype Timed = Timed(call: StoreCall, now: int)

  datatype StoreAnswer = Done | Flag(revoked: bool) | Wait(retry: int)

  datatype Backend = Memory | Redis {
    /** The window a failure opens. */
    function Window(window: int): int {
      if Memory? then window else KeptWindow(window)
    }
  }

  predicate InOrder(calls: seq<Timed>) {
    (forall i | 0 <= i < |calls| :: 0 <= calls[i].now) &&
    (forall i, k | 0 <= i < k < |calls| :: calls[i].now <= calls[k].now)
  }

  /** The service refuses to use the limiter otherwise. */
  predicate Configured(calls: seq<Timed>) {
    forall i | 0 <= i < |calls| && (calls[i].call.Check? || calls[i].call.Record?) ::
      calls[i].call.accountLimit > 0 && calls[i].call.ipLimit > 0 && calls[i].call.window > 0
  }

  /** What one call adds to the history. */
  function Trace(b: Backend, t: Timed): History {
    match t.call
    case Revoke(jti, ttl) => if ttl <= 0 then [] else [Revocation(jti, t.now, ttl)]
    case Record(account, ip, _, _, window) => [Failure(account, ip, t.now, b.Window(window))]
    case ResetAccount(account) => [Reset(account)]
    case _ => []
  }

  function HistoryOf(b: Backend, calls: seq<Timed>): History {
    if calls == [] then [] else HistoryOf(b, calls[..|calls| - 1]) + Trace(b, calls[|calls| - 1])
  }

  function AnswerOf(b: Backend, h: History, t: Timed): StoreAnswer {
    match t.call
    case AskRevoked(jti) => Flag(IsRevoked(h, jti, t.now))
    case Check(account, ip, accountLimit, ipLimit, _) => Wait(Retry(h, account, ip, accountLimit, ipLimit, t.now))
    case Record(account, ip, accountLimit, ipLimit, _) =>
      Wait(Retry(h + Trace(b, t), account, ip, accountLimit, ipLimit, t.now))
    case _ => Done
  }

  function Answers(b: Backend, calls: seq<Timed>): seq<StoreAnswer> {
    if calls == [] then []
    else Answers(b, calls[..|calls| - 1]) + [AnswerOf(b, HistoryOf(b, calls[..|calls| - 1]), calls[|calls| - 1])]
  }

  // ---------- the stores answer so ----------

  method ServeMemory(store: MemoryStore, t: Timed) returns (answer: StoreAnswer)
    requires store.Valid() && store.clock <= t.now
    requires t.call.Check? || t.call.Record? ==> t.call.accountLimit > 0 && t.call.ipLimit > 0 && t.call.window > 0
    modifies store
    ensures store.Valid() && store.clock == t.now
    ensures store.history == old(store.history) + Trace(Memory, t)
    ensures answer == AnswerOf(Memory, old(store.history), t)
  {
    match t.call {
      case Revoke(jti, ttl) =>
        store.RevokeAccessToken(jti, ttl, t.now);
        answer := Done;
      case AskRevoked(jti) =>
        var revoked := store.IsAccessTokenRevoked(jti, t.now);
        answer := Flag(revoked);
      case Check(account, ip, accountLimit, ipLimit, window) =>
        var retry := store.CheckLoginLimit(account, ip, accountLimit, ipLimit, window, t.now);
        answer := Wait(retry);
      case Record(account, ip, accountLimit, ipLimit, window) =>
        var retry := store.RecordLoginFailure(account, ip, accountLimit, ipLimit, window, t.now);
        answer := Wait(retry);
      case ResetAccount(account) =>
        store.ResetLoginAccount(account, t.now);
        answer := Done;
    }
  }

  method RunMemory(calls: seq<Timed>) returns (answers: seq<StoreAnswer>)
    requires InOrder(calls) && Configured(calls)
    ensures answers == Answers(Memory, calls)
  {
    var store := new MemoryStore();
    answers := [];
    for i := 0 to |calls|
      invariant fresh(store) && store.Valid() && store.history == HistoryOf(Memory, calls[..i])
      invariant store.clock == if i == 0 then 0 else calls[i - 1].now
      invariant answers == Answers(Memory, calls[..i])
    {
      assert calls[..i + 1][..i] == calls[..i];
      var answer := ServeMemory(store, calls[i]);
      answers := answers + [answer];
    }
    assert calls[..|calls|] == calls;
  }

  method ServeRedis(store: RedisStore, t: Timed) returns (answer: StoreAnswer)
    requires store.Valid() && store.clock <= t.now
    requires t.call.Check? || t.call.Record? ==> t.call.accountLimit > 0 && t.call.ipLimit > 0 && t.call.window > 0
    modifies store, store.client
    ensures store.Valid() && store.clock == t.now
    ensures store.history == old(store.history) + Trace(Redis, t)
    ensures answer == AnswerOf(Redis, old(store.history), t)
  {
    match t.call {
      case Revoke(jti, ttl) =>
        store.RevokeAccessToken(jti, ttl, t.now);
        answer := Done;
      case AskRevoked(jti) =>
        var revoked := store.IsAccessTokenRevoked(jti, t.now);
        answer := Flag(revoked);
      case Check(account, ip, accountLimit, ipLimit, window) =>
        var retry := store.CheckLoginLimit(account, ip, accountLimit, ipLimit, window, t.now);
        answer := Wait(retry);
      case Record(account, ip, accountLimit, ipLimit, window) =>
        var retry := store.RecordLoginFailure(account, ip, accountLimit, ipLimit, window, t.now);
        answer := Wait(retry);
      case ResetAccount(account) =>
        store.ResetLoginAccount(account, t.now);
        answer := Done;
    }
  }

  method RunRedis(calls: seq<Timed>) returns (answers: seq<StoreAnswer>)
    requires InOrder(calls) && Configured(calls)
    ensures answers == Answers(Redis, calls)
  {
    var store := new RedisStore();
    answers := [];
    for i := 0 to |calls|
      invariant fresh(store) && fresh(store.client) && store.Valid() && store.history == HistoryOf(Redis, calls[..i])
      invariant store.clock == if i == 0 then 0 else calls[i - 1].now
      invariant answers == Answers(Redis, calls[..i])
    {
      assert calls[..i + 1][..i] == calls[..i];
      var answer := ServeRedis(store, calls[i]);
      answers := answers + [answer];
    }
    assert calls[..|calls|] == calls;
  }

  // ---------- when they agree ----------

  predicate UsesWindow(calls: seq<Timed>, window: int) {
    forall i | 0 <= i < |calls| && calls[i].call.Record? :: calls[i].call.window == window
  }

  lemma {:induction false} WholeSecondsAgree(calls: seq<Timed>, window: int)
    requires UsesWindow(calls, window) && KeptWindow(window) == window
    ensures HistoryOf(Memory, calls) == HistoryOf(Redis, calls)
    ensures Answers(Memory, calls) == Answers(Redis, calls)
  {
    if calls != [] {
      WholeSecondsAgree(calls[..|calls| - 1], window);
    }
  }

  /** `n` failures of one account from one address at time 0. */
  function Burst(n: nat, accountLimit: int, ipLimit: int, window: int): (calls: seq<Timed>)
    ensures |calls| == n && InOrder(calls) && UsesWindow(calls, window)
    ensures accountLimit > 0 && ipLimit > 0 && window > 0 ==> Configured(calls)
  {
    seq(n, _ => Timed(Record("account", "ip", accountLimit, ipLimit, window), 0))
  }

  lemma BurstGrows(b: Backend, n: nat, accountLimit: int, ipLimit: int, window: int)
    requires n > 0
    ensures var calls := Burst(n, accountLimit, ipLimit, window);
            var init := Burst(n - 1, accountLimit, ipLimit, window);
            && calls[..n - 1] == init
            && HistoryOf(b, calls) == HistoryOf(b, init) + [Failure("account", "ip", 0, b.Window(window))]
  {
    assert Burst(n, accountLimit, ipLimit, window)[..n - 1] == Burst(n - 1, accountLimit, ipLimit, window);
  }

  lemma {:induction false} BurstFillsWindow(b: Backend, n: nat, accountLimit: int, ipLimit: int, window: int, key: Key)
    requires n > 0 && b.Window(window) > 0
    requires key == AccountKey("account") || key == IpKey("ip")
    ensures var h := HistoryOf(b, Burst(n, accountLimit, ipLimit, window));
            Open(h, key, 0) && Count(h, key) == n && Deadline(h, key) == b.Window(window)
  {
    BurstGrows(b, n, accountLimit, ipLimit, window);
    var before := HistoryOf(b, Burst(n - 1, accountLimit, ipLimit, window));
    if n > 1 {
      BurstFillsWindow(b, n - 1, accountLimit, ipLimit, window, key);
    } else {
      assert Opening(before, key).None?;
    }
    AfterFailure(before, Failure("account", "ip", 0, b.Window(window)), key);
  }

  lemma FullWindowWaits(h: History, accountLimit: int, ipLimit: int, window: int)
    requires Open(h, AccountKey("account"), 0) && Deadline(h, AccountKey("account")) == window
    requires Open(h, IpKey("ip"), 0) && Deadline(h, IpKey("ip")) == window
    requires window > 0 && Count(h, AccountKey("account")) == accountLimit
    ensures Retry(h, "account", "ip", accountLimit, ipLimit, 0) == window
  {
  }

  /** The failure that reaches the account limit is told the whole window. */
  lemma BurstWaitsWindow(b: Backend, accountLimit: int, ipLimit: int, window: int)
    requires accountLimit > 0 && ipLimit > 0 && b.Window(window) > 0
    ensures var answers := Answers(b, Burst(accountLimit, accountLimit, ipLimit, window));
            answers != [] && answers[|answers| - 1] == Wait(b.Window(window))
  {
    BurstGrows(b, accountLimit, accountLimit, ipLimit, window);
    BurstFillsWindow(b, accountLimit, accountLimit, ipLimit, window, AccountKey("account"));
    BurstFillsWindow(b, accountLimit, accountLimit, ipLimit, window, IpKey("ip"));
    var calls := Burst(accountLimit, accountLimit, ipLimit, window);
    FullWindowWaits(HistoryOf(b, calls), accountLimit, ipLimit, b.Window(window));
    assert calls[accountLimit - 1] == Timed(Record("account", "ip", accountLimit, ipLimit, window), 0);
  }

  /**
   With the limits and window of a service, both stores answer every sequence alike exactly when the
   window is whole seconds.
   */
  lemma StoresAgreeExactlyOnWholeSeconds(accountLimit: int, ipLimit: int, window: int)
    requires accountLimit > 0 && ipLimit > 0 && window > 0
    ensures (forall calls | InOrder(calls) && Configured(calls) && UsesWindow(calls, window) ::
               Answers(Memory, calls) == Answers(Redis, calls)) <==> window % SECOND == 0
  {
    if window % SECOND == 0 {
      forall calls | InOrder(calls) && Configured(calls) && UsesWindow(calls, window)
        ensures Answers(Memory, calls) == Answers(Redis, calls)
      {
        WholeSecondsAgree(calls, window);
      }
    } else {
      var calls := Burst(accountLimit, accountLimit, ipLimit, window);
      BurstWaitsWindow(Memory, accountLimit, ipLimit, window);
      BurstWaitsWindow(Redis, accountLimit, ipLimit, window);
      assert KeptWindow(window) != window;
      assert Answers(Memory, calls) != Answers(Redis, calls);
    }
  }

  // ---------- reads leave no trace ----------

  predicate IsRead(c: StoreCall) {
    c.Check? || c.AskRevoked?
  }

  lemma HistorySnoc(b: Backend, calls: seq<Timed>, t: Timed)
    ensures HistoryOf(b, calls + [t]) == HistoryOf(b, calls) + Trace(b, t)
  {
    assert (calls + [t])[..|calls + [t]| - 1] == calls;
  }

  lemma LastOfConcat<T>(calls: seq<T>, more: seq<T>)
    requires more != []
    ensures var init, last := more[..|more| - 1], more[|more| - 1];
            more == init + [last] && calls + more == calls + init + [last]
  {
  }

  lemma {:induction false} HistoryConcat(b: Backend, calls: seq<Timed>, more: seq<Timed>)
    ensures HistoryOf(b, calls + more) == HistoryOf(b, calls) + HistoryOf(b, more)
  {
    if more == [] {
      assert calls + more == calls;
    } else {
      var init, last := more[..|more| - 1], more[|more| - 1];
      HistoryConcat(b, calls, init);
      HistorySnoc(b, calls + init, last);
      HistorySnoc(b, init, last);
      LastOfConcat(calls, more);
    }
  }

  /** A limit check or revocation check, put in anywhere, changes no later answer. */
  lemma ReadsAreInvisible(b: Backend, calls: seq<Timed>, read: Timed, more: seq<Timed>, later: Timed)
    requires IsRead(read.call)
    ensures AnswerOf(b, HistoryOf(b, calls + [read] + more), later) == AnswerOf(b, HistoryOf(b, calls + more), later)
  {
    HistoryConcat(b, calls + [read], more);
    HistoryConcat(b, calls, [read]);
    HistoryConcat(b, calls, more);
    assert [read][..|[read]| - 1] == [];
    assert HistoryOf(b, [read]) == [];
    assert HistoryOf(b, calls) + [] == HistoryOf(b, calls);
  }
}
