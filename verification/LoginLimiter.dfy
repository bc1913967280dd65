/** Login attempts that check, verify and record beside each other: how far the limits can be overrun. */
module LoginLimiter {
  import opened SessionModel
  import opened AuthHistory
  import opened MemoryStores

  datatype Config = Config(accountLimit: int, ipLimit: int, window: int) {
    predicate Valid() { accountLimit > 0 && ipLimit > 0 && window > 0 }

    function Limit(key: Key): int {
      if key.AccountKey? then accountLimit else ipLimit
    }
  }

  /** The `Retry-After` of a refused attempt, in whole seconds; none when it may go on. */
  function RetryAfter(retry: int): Option<int> {
    if retry <= 0 then None
    else
      var seconds := (retry + SECOND - 1) / SECOND;
      Some(if seconds < 1 then 1 else seconds)
  }

  // ---------- one attempt ----------

  datatype Verdict = Accepted | WrongCredentials | Unavailable

  datatype Response = LoggedIn | Refused | Limited(retryAfter: int) | Failed

  class LoginHandler {
    const store: MemoryStore
    const config: Config

    constructor (store: MemoryStore, config: Config)
      ensures this.store == store && this.config == config
    {
      this.store, this.config := store, config;
    }

    /** The limit is read before the credentials are verified and the failure recorded after. */
    method Login(account: string, ip: string, verdict: Verdict, checked: int, verified: int)
      returns (response: Response)
      requires config.Valid() && store.Valid() && store.clock <= checked <= verified
      modifies store
      ensures store.Valid()
      ensures var h := old(store.history);
              var wait := RetryAfter(Retry(h, account, ip, config.accountLimit, config.ipLimit, checked));
              if wait.Some? then response == Limited(wait.value) && store.history == h
              else
                match verdict
                case Accepted => response == LoggedIn && store.history == h + [Reset(account)]
                case Unavailable => response == Failed && store.history == h
                case WrongCredentials =>
                  var h' := h + [Failure(account, ip, verified, config.window)];
                  var after := RetryAfter(Retry(h', account, ip, config.accountLimit, config.ipLimit, verified));
                  store.history == h' && response == if after.Some? then Limited(after.value) else Refused
    {
      var retry := store.CheckLoginLimit(account, ip, config.accountLimit, config.ipLimit, config.window, checked);
      var wait := RetryAfter(retry);
      if wait.Some? {
        return Limited(wait.value);
      }
      match verdict {
        case WrongCredentials =>
          retry := store.RecordLoginFailure(account, ip, config.accountLimit, config.ipLimit, config.window, verified);
          wait := RetryAfter(retry);
          return if wait.Some? then Limited(wait.value) else Refused;
        case Unavailable => return Failed;
        case Accepted =>
          store.ResetLoginAccount(account, verified);
          return LoggedIn;
      }
    }
  }

  // ---------- attempts beside each other ----------

  datatype Attempt = Attempt(account: string, ip: string)

  /** Attempts that passed the check and have not been recorded. */
  datatype Limiter = Limiter(history: History, clock: int, past: map<nat, Attempt>)

  datatype Event =
    | Arrive(id: nat, attempt: Attempt, now: int)
    | Fail(id: nat, now: int)
    | Succeed(id: nat, now: int)
    | Abandon(id: nat, now: int)

  const QUIET := Limiter([], 0, map[])

  predicate Possible(s: Limiter, e: Event) {
    s.clock <= e.now && (if e.Arrive? then e.id !in s.past else e.id in s.past)
  }

  function Step(cfg: Config, s: Limiter, e: Event): Limiter
    requires Possible(s, e)
  {
    match e
    case Arrive(id, a, now) =>
      if RetryAfter(Retry(s.history, a.account, a.ip, cfg.accountLimit, cfg.ipLimit, now)).Some?
      then s.(clock := now)
      else Limiter(s.history, now, s.past[id := a])
    case Fail(id, now) =>
      Limiter(s.history + [Failure(s.past[id].account, s.past[id].ip, now, cfg.window)], now, s.past - {id})
    case Succeed(id, now) => Limiter(s.history + [Reset(s.past[id].account)], now, s.past - {id})
    case Abandon(id, now) => Limiter(s.history, now, s.past - {id})
  }

  predicate Runs(cfg: Config, events: seq<Event>)
    decreases |events|, 0
  {
    events != [] ==>
      Runs(cfg, events[..|events| - 1]) && Possible(Final(cfg, events[..|events| - 1]), events[|events| - 1])
  }

  function Final(cfg: Config, events: seq<Event>): Limiter
    requires Runs(cfg, events)
    decreases |events|, 1
  {
    if events == [] then QUIET
    else Step(cfg, Final(cfg, events[..|events| - 1]), events[|events| - 1])
  }

  predicate Concerns(a: Attempt, key: Key) {
    key == AccountKey(a.account) || key == IpKey(a.ip)
  }

  /** Attempts past the check that would count against the key. */
  function Pending(s: Limiter, key: Key): set<nat> {
    set id | id in s.past && Concerns(s.past[id], key)
  }

  /** Never more than `k` attempts of the key at once. */
  ghost predicate Bounded(cfg: Config, events: seq<Event>, key: Key, k: nat)
    requires Runs(cfg, events)
  {
    |Pending(Final(cfg, events), key)| <= k &&
    (events != [] ==> Bounded(cfg, events[..|events| - 1], key, k))
  }

  lemma LaterCountIsNoLarger(h: History, key: Key, now: int, later: int)
    requires now <= later
    ensures LiveCount(h, key, later) <= LiveCount(h, key, now)
  {
  }

  /** One failure adds one to the live count of its keys. */
  lemma FailureCountsOne(h: History, e: AuthHistory.Event, key: Key)
    requires Hits(e, key) && e.window > 0
    ensures LiveCount(h + [e], key, e.at) == LiveCount(h, key, e.at) + 1
  {
    AfterFailure(h, e, key);
  }

  lemma OtherCountsNothing(h: History, e: AuthHistory.Event, key: Key, now: int)
    requires !Hits(e, key)
    ensures LiveCount(h + [e], key, now) <= LiveCount(h, key, now)
  {
    if Clears(e, key) {
      AfterReset(h, e, key);
    } else {
      AfterOther(h, e, key);
    }
  }

  lemma PassedCheckIsBelowLimit(cfg: Config, h: History, a: Attempt, key: Key, now: int)
    requires cfg.Valid() && Concerns(a, key)
    requires RetryAfter(Retry(h, a.account, a.ip, cfg.accountLimit, cfg.ipLimit, now)).None?
    ensures LiveCount(h, key, now) <= cfg.Limit(key) - 1
  {
  }

  /** Count plus attempts past the check. */
  ghost predicate WithinBudget(cfg: Config, s: Limiter, key: Key, k: nat) {
    LiveCount(s.history, key, s.clock) + |Pending(s, key)| <= cfg.Limit(key) - 1 + k
  }

  lemma ArriveKeepsBudget(cfg: Config, s: Limiter, e: Event, key: Key, k: nat)
    requires cfg.Valid() && e.Arrive? && Possible(s, e) && WithinBudget(cfg, s, key, k)
    requires |Pending(Step(cfg, s, e), key)| <= k
    ensures WithinBudget(cfg, Step(cfg, s, e), key, k)
  {
    var s' := Step(cfg, s, e);
    LaterCountIsNoLarger(s.history, key, s.clock, e.now);
    if s'.past != s.past && Concerns(e.attempt, key) {
      PassedCheckIsBelowLimit(cfg, s.history, e.attempt, key, e.now);
    } else {
      assert Pending(s', key) == Pending(s, key);
    }
  }

  lemma FailKeepsBudget(cfg: Config, s: Limiter, e: Event, key: Key, k: nat)
    requires cfg.Valid() && e.Fail? && Possible(s, e) && WithinBudget(cfg, s, key, k)
    ensures WithinBudget(cfg, Step(cfg, s, e), key, k)
  {
    var a := s.past[e.id];
    var event := Failure(a.account, a.ip, e.now, cfg.window);
    LaterCountIsNoLarger(s.history, key, s.clock, e.now);
    assert Pending(Step(cfg, s, e), key) == Pending(s, key) - {e.id};
    if Hits(event, key) {
      FailureCountsOne(s.history, event, key);
    } else {
      OtherCountsNothing(s.history, event, key, e.now);
    }
  }

  lemma EndKeepsBudget(cfg: Config, s: Limiter, e: Event, key: Key, k: nat)
    requires (e.Succeed? || e.Abandon?) && Possible(s, e) && WithinBudget(cfg, s, key, k)
    ensures WithinBudget(cfg, Step(cfg, s, e), key, k)
  {
    LaterCountIsNoLarger(s.history, key, s.clock, e.now);
    assert Pending(Step(cfg, s, e), key) == Pending(s, key) - {e.id};
    if e.Succeed? {
      OtherCountsNothing(s.history, Reset(s.past[e.id].account), key, e.now);
    }
  }

  lemma StepKeepsBudget(cfg: Config, s: Limiter, e: Event, key: Key, k: nat)
    requires cfg.Valid() && Possible(s, e) && WithinBudget(cfg, s, key, k)
    requires |Pending(Step(cfg, s, e), key)| <= k
    ensures WithinBudget(cfg, Step(cfg, s, e), key, k)
  {
    if e.Arrive? {
      ArriveKeepsBudget(cfg, s, e, key, k);
    } else if e.Fail? {
      FailKeepsBudget(cfg, s, e, key, k);
    } else {
      EndKeepsBudget(cfg, s, e, key, k);
    }
  }

  /** With at most `k` attempts of a key at once, no window ever counts more than its limit plus `k - 1` failures. */
  lemma {:induction false} OverrunIsBounded(cfg: Config, events: seq<Event>, key: Key, k: nat)
    requires cfg.Valid() && Runs(cfg, events) && Bounded(cfg, events, key, k)
    requires k > 0
    ensures WithinBudget(cfg, Final(cfg, events), key, k)
    ensures LiveCount(Final(cfg, events).history, key, Final(cfg, events).clock) <= cfg.Limit(key) + k - 1
  {
    if events != [] {
      var init := events[..|events| - 1];
      OverrunIsBounded(cfg, init, key, k);
      StepKeepsBudget(cfg, Final(cfg, init), events[|events| - 1], key, k);
    }
  }

  // ---------- the bound is reached ----------

  function Ids(first: nat, next: nat): (ids: set<nat>)
    requires first <= next
    ensures |ids| == next - first && forall id: nat :: id in ids <==> first <= id < next
    decreases next
  {
    if next == first then {} else Ids(first, next - 1) + {next - 1}
  }

  /** A name for every number. */
  function Name(n: nat): string {
    seq(n, _ => 'x')
  }

  /** Attempt `n` on the account or address of the key comes from, or is for, one of its own. */
  function AttemptOn(key: Key, n: nat): Attempt {
    match key
    case AccountKey(account) => Attempt(account, Name(n))
    case IpKey(ip) => Attempt(Name(n), ip)
  }

  function OtherKey(key: Key, n: nat): Key {
    if key.AccountKey? then IpKey(Name(n)) else AccountKey(Name(n))
  }

  ghost predicate Waiting(past: map<nat, Attempt>, key: Key, first: nat, next: nat)
    requires first <= next
  {
    && (forall id: nat :: id in past <==> first <= id < next)
    && (forall id | id in past :: past[id] == AttemptOn(key, id))
  }

  ghost predicate OthersAreFresh(h: History, key: Key, first: nat) {
    forall n: nat {:trigger OtherKey(key, n)} | n >= first :: LiveCount(h, OtherKey(key, n), 0) == 0
  }

  /** Attempts on the key below `first` have failed, those below `next` wait; all at time 0. */
  ghost predicate Counted(s: Limiter, key: Key, first: nat, next: nat) {
    && first <= next && s.clock == 0 && LiveCount(s.history, key, 0) == first
    && Waiting(s.past, key, first, next)
    && OthersAreFresh(s.history, key, first)
  }

  lemma PendingIds(s: Limiter, key: Key, first: nat, next: nat)
    requires first <= next && Waiting(s.past, key, first, next)
    ensures |Pending(s, key)| == next - first
  {
    assert Pending(s, key) == Ids(first, next);
  }

  lemma BelowLimitPasses(cfg: Config, h: History, a: Attempt, now: int)
    requires LiveCount(h, AccountKey(a.account), now) < cfg.accountLimit
    requires LiveCount(h, IpKey(a.ip), now) < cfg.ipLimit
    ensures RetryAfter(Retry(h, a.account, a.ip, cfg.accountLimit, cfg.ipLimit, now)).None?
  {
  }

  lemma NextWaits(past: map<nat, Attempt>, key: Key, first: nat, next: nat)
    requires first < next && Waiting(past, key, first, next - 1)
    ensures next - 1 !in past && Waiting(past[next - 1 := AttemptOn(key, next - 1)], key, first, next)
  {
  }

  /** An attempt from, or for, a fresh one of the other kind passes while the key is below its limit. */
  lemma FreshPasses(cfg: Config, s: Limiter, key: Key, n: nat)
    requires cfg.Valid() && s.clock == 0 && n !in s.past
    requires LiveCount(s.history, key, 0) < cfg.Limit(key) && LiveCount(s.history, OtherKey(key, n), 0) == 0
    ensures var e := Arrive(n, AttemptOn(key, n), 0);
            Possible(s, e) && Step(cfg, s, e) == s.(past := s.past[n := AttemptOn(key, n)])
  {
    BelowLimitPasses(cfg, s.history, AttemptOn(key, n), 0);
  }

  lemma ArriveCounts(cfg: Config, s: Limiter, key: Key, first: nat, next: nat)
    requires cfg.Valid() && first < next && Counted(s, key, first, next - 1) && first < cfg.Limit(key)
    ensures var e := Arrive(next - 1, AttemptOn(key, next - 1), 0);
            Possible(s, e) && Counted(Step(cfg, s, e), key, first, next)
  {
    NextWaits(s.past, key, first, next);
    assert LiveCount(s.history, OtherKey(key, next - 1), 0) == 0;
    FreshPasses(cfg, s, key, next - 1);
  }

  /** A failure of attempt `id` counts for the key and for no other fresh one. */
  lemma FailureCounts(cfg: Config, h: History, key: Key, id: nat)
    requires cfg.Valid() && OthersAreFresh(h, key, id)
    ensures var a := AttemptOn(key, id);
            var h' := h + [Failure(a.account, a.ip, 0, cfg.window)];
            LiveCount(h', key, 0) == LiveCount(h, key, 0) + 1 && OthersAreFresh(h', key, id + 1)
  {
    var a := AttemptOn(key, id);
    var event := Failure(a.account, a.ip, 0, cfg.window);
    FailureCountsOne(h, event, key);
    forall n: nat | n > id
      ensures LiveCount(h + [event], OtherKey(key, n), 0) == 0
    {
      assert |Name(n)| != |Name(id)|;
      OtherCountsNothing(h, event, OtherKey(key, n), 0);
    }
  }

  lemma FirstLeaves(past: map<nat, Attempt>, key: Key, first: nat, next: nat)
    requires 0 < first <= next && Waiting(past, key, first - 1, next)
    ensures first - 1 in past && Waiting(past - {first - 1}, key, first, next)
  {
  }

  lemma FailCounts(cfg: Config, s: Limiter, key: Key, first: nat, next: nat)
    requires cfg.Valid() && 0 < first <= next && Counted(s, key, first - 1, next)
    ensures Possible(s, Fail(first - 1, 0)) && Counted(Step(cfg, s, Fail(first - 1, 0)), key, first, next)
  {
    FailureCounts(cfg, s.history, key, first - 1);
    FirstLeaves(s.past, key, first, next);
  }

  ghost predicate CountsTo(cfg: Config, events: seq<Event>, key: Key, first: nat, next: nat, k: nat) {
    Runs(cfg, events) && Bounded(cfg, events, key, k) && Counted(Final(cfg, events), key, first, next)
  }

  lemma Extend(cfg: Config, events: seq<Event>, e: Event, key: Key, first: nat, next: nat, k: nat)
    requires Runs(cfg, events) && Possible(Final(cfg, events), e) && Bounded(cfg, events, key, k)
    requires Counted(Step(cfg, Final(cfg, events), e), key, first, next) && next <= first + k
    ensures CountsTo(cfg, events + [e], key, first, next, k)
  {
    assert (events + [e])[..|events + [e]| - 1] == events;
    PendingIds(Step(cfg, Final(cfg, events), e), key, first, next);
  }

  lemma NothingCounts(cfg: Config, key: Key, k: nat)
    ensures CountsTo(cfg, [], key, 0, 0, k)
  {
    assert Pending(QUIET, key) == {};
  }

  lemma ArriveOnce(cfg: Config, events: seq<Event>, key: Key, first: nat, next: nat, k: nat) returns (more: seq<Event>)
    requires cfg.Valid() && first < next <= first + k && first < cfg.Limit(key)
    requires CountsTo(cfg, events, key, first, next - 1, k)
    ensures CountsTo(cfg, more, key, first, next, k)
  {
    ArriveCounts(cfg, Final(cfg, events), key, first, next);
    var e := Arrive(next - 1, AttemptOn(key, next - 1), 0);
    Extend(cfg, events, e, key, first, next, k);
    more := events + [e];
  }

  lemma FailOnce(cfg: Config, events: seq<Event>, key: Key, first: nat, next: nat, k: nat) returns (more: seq<Event>)
    requires cfg.Valid() && 0 < first <= next <= first + k
    requires CountsTo(cfg, events, key, first - 1, next, k)
    ensures CountsTo(cfg, more, key, first, next, k)
  {
    FailCounts(cfg, Final(cfg, events), key, first, next);
    Extend(cfg, events, Fail(first - 1, 0), key, first, next, k);
    more := events + [Fail(first - 1, 0)];
  }

  /** Up to one below the limit attempts fail in turn; then `k` pass the check before any is recorded. */
  lemma CountUp(cfg: Config, key: Key, first: nat, next: nat, k: nat) returns (events: seq<Event>)
    requires cfg.Valid() && k > 0 && first <= next <= first + k && next <= cfg.Limit(key) - 1 + k
    ensures CountsTo(cfg, events, key, first, next, k)
    decreases first + next
  {
    if next == 0 {
      events := [];
      NothingCounts(cfg, key, k);
    } else if first < next && first < cfg.Limit(key) {
      events := CountUp(cfg, key, first, next - 1, k);
      events := ArriveOnce(cfg, events, key, first, next, k);
    } else {
      events := CountUp(cfg, key, first - 1, next, k);
      events := FailOnce(cfg, events, key, first, next, k);
    }
  }

  /** The bound is exact: with `k` attempts at once every account and address can reach its limit plus `k - 1`. */
  lemma OverrunIsReached(cfg: Config, key: Key, k: nat) returns (events: seq<Event>)
    requires cfg.Valid() && k > 0
    ensures Runs(cfg, events) && Bounded(cfg, events, key, k)
    ensures LiveCount(Final(cfg, events).history, key, Final(cfg, events).clock) == cfg.Limit(key) + k - 1
  {
    var n := cfg.Limit(key) + k - 1;
    events := CountUp(cfg, key, n, n, k);
  }

  // ---------- Retry-After ----------

  ghost predicate RecordedBy(h: History, window: int, now: int) {
    forall i | 0 <= i < |h| && h[i].Failure? :: h[i].window == window && h[i].at <= now
  }

  lemma WaitIsBounded(h: History, account: string, ip: string, cfg: Config, now: int)
    requires cfg.Valid() && RecordedBy(h, cfg.window, now)
    ensures Retry(h, account, ip, cfg.accountLimit, cfg.ipLimit, now) <= cfg.window
  {
  }

  /**
   The header is sent exactly when a limit is reached, and it is exact: that many seconds unblock
   the attempt, no smaller whole number does, and it is at most the window rounded up.
   */
  lemma RetryAfterIsExact(h: History, account: string, ip: string, cfg: Config, now: int)
    requires cfg.Valid() && RecordedBy(h, cfg.window, now)
    ensures var wait := RetryAfter(Retry(h, account, ip, cfg.accountLimit, cfg.ipLimit, now));
            && (wait.Some? <==> Blocked(h, account, ip, cfg.accountLimit, cfg.ipLimit, now))
            && (wait.Some? ==>
                  && !Blocked(h, account, ip, cfg.accountLimit, cfg.ipLimit, now + wait.value * 1000)
                  && (forall w: int | 0 <= w < wait.value ::
                        Blocked(h, account, ip, cfg.accountLimit, cfg.ipLimit, now + w * 1000))
                  && 1 <= wait.value <= (cfg.window + 999) / 1000)
  {
    var retry := Retry(h, account, ip, cfg.accountLimit, cfg.ipLimit, now);
    WaitIsExact(h, account, ip, cfg.accountLimit, cfg.ipLimit, now, 0);
    if RetryAfter(retry).Some? {
      var s := RetryAfter(retry).value;
      assert 1 <= s && (s - 1) * 1000 < retry <= s * 1000;
      WaitIsExact(h, account, ip, cfg.accountLimit, cfg.ipLimit, now, s * 1000);
      forall w: int | 0 <= w < s
        ensures Blocked(h, account, ip, cfg.accountLimit, cfg.ipLimit, now + w * 1000)
      {
        WaitIsExact(h, account, ip, cfg.accountLimit, cfg.ipLimit, now, w * 1000);
        assert w * 1000 <= (s - 1) * 1000;
      }
      WaitIsBounded(h, account, ip, cfg, now);
    }
  }

  // ---------- one attempt alone ----------

  /** An attempt with nothing beside it leaves the history that the handler leaves. */
  lemma AloneIsTheHandler(cfg: Config, s: Limiter, id: nat, a: Attempt, checked: int, verified: int)
    requires cfg.Valid() && id !in s.past && s.clock <= checked <= verified
    ensures var arrived := Step(cfg, s, Arrive(id, a, checked));
            if Blocked(s.history, a.account, a.ip, cfg.accountLimit, cfg.ipLimit, checked)
            then arrived == s.(clock := checked)
            else
              && id in arrived.past
              && Step(cfg, arrived, Fail(id, verified)) ==
                 Limiter(s.history + [Failure(a.account, a.ip, verified, cfg.window)], verified, s.past)
              && Step(cfg, arrived, Succeed(id, verified)) ==
                 Limiter(s.history + [Reset(a.account)], verified, s.past)
              && Step(cfg, arrived, Abandon(id, verified)) == Limiter(s.history, verified, s.past)
  {
    WaitIsExact(s.history, a.account, a.ip, cfg.accountLimit, cfg.ipLimit, checked, 0);
    assert s.past[id := a] - {id} == s.past;
  }
}
