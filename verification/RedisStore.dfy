/**
 The store that keeps counters and revocations as Redis keys. A key is live while the time is
 before its deadline; EXPIRE takes whole seconds, rounded down but never to zero.
 */
module RedisStores {
  import opened SessionModel
  import opened AuthHistory

  datatype RedisKey = CounterKey(key: Key) | RevokedKey(jti: string)

  datatype RedisValue = RedisValue(value: int, deadline: Option<int>)

  const NO_KEY := -2
  const NO_DEADLINE := -1

  /** The seconds that the client sends for a window. */
  function ExpireSeconds(window: int): int {
    if 0 < window < SECOND then 1 else if window > 0 then window / SECOND else 0
  }

  /** The window that the server keeps. */
  function KeptWindow(window: int): int {
    ExpireSeconds(window) * SECOND
  }

  /** The window is cut to whole seconds, but never below one second; one that is not positive ends at once. */
  lemma WindowIsCut(window: int)
    ensures KeptWindow(window) % 1000 == 0
    ensures window >= 1000 ==> window - 1000 < KeptWindow(window) <= window
    ensures 0 < window < 1000 ==> KeptWindow(window) == 1000
    ensures window <= 0 ==> KeptWindow(window) == 0
  {
  }

  class RedisServer {
    var keys: map<RedisKey, RedisValue>

    constructor ()
      ensures keys == map[]
    {
      keys := map[];
    }

    predicate Live(k: RedisKey, now: int)
      reads this
    {
      k in keys && (keys[k].deadline.Some? ==> now < keys[k].deadline.value)
    }

    method Incr(k: RedisKey, now: int) returns (n: int)
      modifies this
      ensures n == if old(Live(k, now)) then old(keys[k].value) + 1 else 1
      ensures keys == old(keys)[k := RedisValue(n, if old(Live(k, now)) then old(keys[k].deadline) else None)]
    {
      if Live(k, now) {
        n := keys[k].value + 1;
        keys := keys[k := keys[k].(value := n)];
      } else {
        n := 1;
        keys := keys[k := RedisValue(1, None)];
      }
    }

    method ExpireNx(k: RedisKey, seconds: int, now: int)
      modifies this
      ensures keys == if !old(Live(k, now)) || old(keys[k].deadline.Some?) then old(keys)
                      else if seconds <= 0 then old(keys) - {k}
                      else old(keys)[k := old(keys[k]).(deadline := Some(now + seconds * SECOND))]
    {
      if Live(k, now) && keys[k].deadline.None? {
        if seconds <= 0 {
          keys := keys - {k};
        } else {
          keys := keys[k := keys[k].(deadline := Some(now + seconds * SECOND))];
        }
      }
    }

    method Pttl(k: RedisKey, now: int) returns (ttl: int)
      ensures !Live(k, now) ==> ttl == NO_KEY
      ensures Live(k, now) ==> ttl == if keys[k].deadline.None? then NO_DEADLINE else keys[k].deadline.value - now
    {
      if !Live(k, now) {
        ttl := NO_KEY;
      } else if keys[k].deadline.None? {
        ttl := NO_DEADLINE;
      } else {
        ttl := keys[k].deadline.value - now;
      }
    }

    method Get(k: RedisKey, now: int) returns (value: Option<int>)
      ensures value == if Live(k, now) then Some(keys[k].value) else None
    {
      value := if Live(k, now) then Some(keys[k].value) else None;
    }

    method Del(k: RedisKey)
      modifies this
      ensures keys == old(keys) - {k}
    {
      keys := keys - {k};
    }

    method Set(k: RedisKey, value: int, ttl: int, now: int)
      modifies this
      ensures keys == old(keys)[k := RedisValue(value, Some(now + ttl))]
    {
      keys := keys[k := RedisValue(value, Some(now + ttl))];
    }

    method Exists(k: RedisKey, now: int) returns (n: int)
      ensures n == if Live(k, now) then 1 else 0
    {
      n := if Live(k, now) then 1 else 0;
    }
  }

  function CounterValue(value: Option<int>): int {
    if value.None? then 0 else value.value
  }

  function PositiveTtl(ttl: int): int {
    if ttl > 0 then ttl else SECOND
  }

  /** What a check answers for one key: with no open window only a limit that is not positive makes it wait. */
  function KeyCheck(h: History, key: Key, limit: int, now: int): int {
    if Open(h, key, now) then KeyRetry(h, key, limit, now) else if limit <= 0 then SECOND else 0
  }

  /** What the failure just recorded is told of one key; a window that is already over waits a second. */
  function KeyRecord(h: History, key: Key, limit: int, now: int): int {
    if Opening(h, key).Some? && Count(h, key) >= limit then PositiveTtl(Deadline(h, key) - now) else 0
  }

  /** A positive time to live is the wait; otherwise the wait is one second. */
  lemma FallbackIsOneSecond(ttl: int)
    ensures PositiveTtl(ttl) == (if ttl > 0 then ttl else 1000)
  {
  }

  /** A check waits for the end of the window while the limit is reached. */
  lemma CheckIsExact(h: History, key: Key, limit: int, now: int, passed: nat)
    requires limit > 0
    ensures LiveCount(h, key, now + passed) >= limit <==> passed < KeyCheck(h, key, limit, now)
  {
  }

  /** The failure just recorded is in an open window if windows are not empty. */
  lemma RecordIsRetry(h: History, e: Event, key: Key, limit: int)
    requires Hits(e, key) && e.window > 0
    ensures KeyRecord(h + [e], key, limit, e.at) == KeyRetry(h + [e], key, limit, e.at)
  {
    AfterFailure(h, e, key);
  }

  class RedisStore {
    const client: RedisServer
    /** The mutations so far, with the windows the server keeps, and the last reading of the clock. */
    ghost var history: History
    ghost var clock: int

    ghost predicate Valid()
      reads this, client
    {
      && (forall key {:trigger CounterMatches(client.keys, history, key, clock)} ::
          CounterMatches(client.keys, history, key, clock))
      && (forall jti {:trigger RevocationMatches(client.keys, history, jti, clock)} ::
          RevocationMatches(client.keys, history, jti, clock))
    }

    /** A counter always has a deadline; while live it is the last window. */
    static ghost predicate CounterMatches(keys: map<RedisKey, RedisValue>, history: History, key: Key, clock: int) {
      var k := CounterKey(key);
      if k in keys
      then
        keys[k].deadline.Some? && Opening(history, key).Some? &&
        keys[k].value == Count(history, key) && keys[k].deadline.value == Deadline(history, key)
      else !Open(history, key, clock)
    }

    static ghost predicate RevocationMatches(keys: map<RedisKey, RedisValue>, history: History, jti: string,
                                             clock: int)
    {
      var k := RevokedKey(jti);
      if k in keys then keys[k].deadline.Some? && RevokedUntil(history, jti) == keys[k].deadline
      else !IsRevoked(history, jti, clock)
    }

    constructor ()
      ensures Valid() && fresh(client) && history == []
      ensures clock == 0
    {
      client := new RedisServer();
      history, clock := [], 0;
    }

    ghost method Tick(now: int)
      requires Valid() && clock <= now
      modifies `clock
      ensures Valid() && clock == now
    {
      forall key
        ensures CounterMatches(client.keys, history, key, now)
      {
        assert CounterMatches(client.keys, history, key, clock);
      }
      forall jti
        ensures RevocationMatches(client.keys, history, jti, now)
      {
        assert RevocationMatches(client.keys, history, jti, clock);
      }
      clock := now;
    }

    method RevokeAccessToken(jti: string, ttl: int, now: int)
      requires Valid() && clock <= now
      modifies this, client
      ensures Valid() && clock == now
      ensures history == old(history) + (if ttl <= 0 then [] else [Revocation(jti, now, ttl)])
    {
      Tick(now);
      if ttl <= 0 {
        return;
      }
      ghost var before := client.keys;
      client.Set(RevokedKey(jti), 1, ttl, now);
      ghost var e := Revocation(jti, now, ttl);
      forall key
        ensures CounterMatches(client.keys, history + [e], key, now)
      {
        assert CounterMatches(before, history, key, now);
        AfterOther(history, e, key);
      }
      forall j
        ensures RevocationMatches(client.keys, history + [e], j, now)
      {
        assert RevocationMatches(before, history, j, now);
        AfterRevocation(history, e, j);
      }
      history := history + [e];
    }

    method IsAccessTokenRevoked(jti: string, now: int) returns (answer: bool)
      requires Valid() && clock <= now
      modifies this
      ensures Valid() && clock == now && history == old(history)
      ensures answer <==> IsRevoked(history, jti, now)
    {
      Tick(now);
      assert RevocationMatches(client.keys, history, jti, now);
      var count := client.Exists(RevokedKey(jti), now);
      answer := count > 0;
    }

    method CheckLoginLimit(account: string, ip: string, accountLimit: int, ipLimit: int, window: int, now: int)
      returns (retry: int)
      requires Valid() && clock <= now
      modifies this
      ensures Valid() && clock == now && history == old(history)
      ensures retry == Max(KeyCheck(history, AccountKey(account), accountLimit, now),
                           KeyCheck(history, IpKey(ip), ipLimit, now))
      ensures accountLimit > 0 && ipLimit > 0 ==> retry == Retry(history, account, ip, accountLimit, ipLimit, now)
    {
      Tick(now);
      assert CounterMatches(client.keys, history, AccountKey(account), now);
      assert CounterMatches(client.keys, history, IpKey(ip), now);
      var accountValue := client.Get(CounterKey(AccountKey(account)), now);
      var ipValue := client.Get(CounterKey(IpKey(ip)), now);
      var accountTtl := client.Pttl(CounterKey(AccountKey(account)), now);
      var ipTtl := client.Pttl(CounterKey(IpKey(ip)), now);
      var accountCount := CounterValue(accountValue);
      var ipCount := CounterValue(ipValue);
      var accountRetry := 0;
      if accountCount >= accountLimit {
        accountRetry := PositiveTtl(accountTtl);
      }
      var ipRetry := 0;
      if ipCount >= ipLimit {
        ipRetry := PositiveTtl(ipTtl);
      }
      retry := Max(accountRetry, ipRetry);
    }

    method RecordLoginFailure(account: string, ip: string, accountLimit: int, ipLimit: int, window: int, now: int)
      returns (retry: int)
      requires Valid() && clock <= now
      modifies this, client
      ensures Valid() && clock == now && history == old(history) + [Failure(account, ip, now, KeptWindow(window))]
      ensures retry == Max(KeyRecord(history, AccountKey(account), accountLimit, now),
                           KeyRecord(history, IpKey(ip), ipLimit, now))
      ensures window > 0 ==> retry == Retry(history, account, ip, accountLimit, ipLimit, now)
    {
      ghost var before := history;
      var accountCount, accountTtl, ipCount, ipTtl := CountBoth(account, ip, window, now);
      if window > 0 {
        RecordIsRetry(before, Failure(account, ip, now, KeptWindow(window)), AccountKey(account), accountLimit);
        RecordIsRetry(before, Failure(account, ip, now, KeptWindow(window)), IpKey(ip), ipLimit);
      }
      var accountRetry := 0;
      if accountCount >= accountLimit {
        accountRetry := PositiveTtl(accountTtl);
      }
      var ipRetry := 0;
      if ipCount >= ipLimit {
        ipRetry := PositiveTtl(ipTtl);
      }
      retry := Max(accountRetry, ipRetry);
    }

    /** The answers of the count and of PTTL are those of the last window. */
    ghost predicate Tells(key: Key, count: int, ttl: int, now: int)
      reads this
    {
      && Opening(history, key).Some? && count == Count(history, key)
      && PositiveTtl(ttl) == PositiveTtl(Deadline(history, key) - now)
    }

    /** The transaction of a failure: INCR, EXPIRE NX and PTTL of both counters. */
    method CountBoth(account: string, ip: string, window: int, now: int)
      returns (accountCount: int, accountTtl: int, ipCount: int, ipTtl: int)
      requires Valid() && clock <= now
      modifies this, client
      ensures Valid() && clock == now && history == old(history) + [Failure(account, ip, now, KeptWindow(window))]
      ensures Tells(AccountKey(account), accountCount, accountTtl, now) && Tells(IpKey(ip), ipCount, ipTtl, now)
    {
      Tick(now);
      ghost var before := client.keys;
      ghost var e := Failure(account, ip, now, KeptWindow(window));
      assert CounterMatches(before, history, AccountKey(account), now);
      assert CounterMatches(before, history, IpKey(ip), now);
      accountCount := CountFailure(AccountKey(account), window, now, e);
      ipCount := CountFailure(IpKey(ip), window, now, e);
      RecordKeepsCounters(before, client.keys, history, e, now);
      RecordKeepsRevocations(before, client.keys, history, e, now);
      history := history + [e];
      accountTtl := client.Pttl(CounterKey(AccountKey(account)), now);
      ipTtl := client.Pttl(CounterKey(IpKey(ip)), now);
      TtlGivesWait(AccountKey(account), now, accountTtl);
      TtlGivesWait(IpKey(ip), now, ipTtl);
    }

    /** The time to live of a counter gives the wait; a counter that is gone gives the fallback. */
    lemma TtlGivesWait(key: Key, now: int, ttl: int)
      requires CounterMatches(client.keys, history, key, now) && Opening(history, key).Some?
      requires client.Live(CounterKey(key), now) <==> Open(history, key, now)
      requires !client.Live(CounterKey(key), now) ==> ttl == NO_KEY
      requires client.Live(CounterKey(key), now) && client.keys[CounterKey(key)].deadline.Some? ==>
                 ttl == client.keys[CounterKey(key)].deadline.value - now
      ensures PositiveTtl(ttl) == PositiveTtl(Deadline(history, key) - now)
    {
    }

    /** Only the two counters of the failure changed, and both are right. */
    static lemma RecordKeepsCounters(before: map<RedisKey, RedisValue>, keys: map<RedisKey, RedisValue>,
                                     h: History, e: Event, now: int)
      requires forall key {:trigger CounterMatches(before, h, key, now)} :: CounterMatches(before, h, key, now)
      requires e.Failure? && CounterMatches(keys, h + [e], AccountKey(e.account), now)
      requires CounterMatches(keys, h + [e], IpKey(e.ip), now)
      requires forall k | k != CounterKey(AccountKey(e.account)) && k != CounterKey(IpKey(e.ip)) ::
                 (k in keys <==> k in before) && (k in keys ==> keys[k] == before[k])
      ensures forall key {:trigger CounterMatches(keys, h + [e], key, now)} :: CounterMatches(keys, h + [e], key, now)
    {
      forall key
        ensures CounterMatches(keys, h + [e], key, now)
      {
        assert CounterMatches(before, h, key, now);
        if !Hits(e, key) {
          AfterOther(h, e, key);
        }
      }
    }

    static lemma RecordKeepsRevocations(before: map<RedisKey, RedisValue>, keys: map<RedisKey, RedisValue>,
                                        h: History, e: Event, now: int)
      requires forall jti {:trigger RevocationMatches(before, h, jti, now)} :: RevocationMatches(before, h, jti, now)
      requires e.Failure?
      requires forall k | k != CounterKey(AccountKey(e.account)) && k != CounterKey(IpKey(e.ip)) ::
                 (k in keys <==> k in before) && (k in keys ==> keys[k] == before[k])
      ensures forall jti {:trigger RevocationMatches(keys, h + [e], jti, now)} ::
                RevocationMatches(keys, h + [e], jti, now)
    {
      forall jti
        ensures RevocationMatches(keys, h + [e], jti, now)
      {
        assert RevocationMatches(before, h, jti, now);
        AfterRevocation(h, e, jti);
      }
    }

    /** INCR and EXPIRE NX of one key, inside the transaction that records the failure `e`. */
    method CountFailure(key: Key, window: int, now: int, ghost e: Event) returns (count: int)
      requires CounterMatches(client.keys, history, key, now)
      requires Hits(e, key) && e.at == now && e.window == KeptWindow(window)
      modifies client
      ensures CounterMatches(client.keys, history + [e], key, now)
      ensures forall k | k != CounterKey(key) ::
                (k in client.keys <==> k in old(client.keys)) &&
                (k in client.keys ==> client.keys[k] == old(client.keys)[k])
      ensures Opening(history + [e], key).Some? && count == Count(history + [e], key)
      ensures client.Live(CounterKey(key), now) <==> Open(history + [e], key, now)
    {
      AfterFailure(history, e, key);
      count := client.Incr(CounterKey(key), now);
      client.ExpireNx(CounterKey(key), ExpireSeconds(window), now);
    }

    method ResetLoginAccount(account: string, now: int)
      requires Valid() && clock <= now
      modifies this, client
      ensures Valid() && clock == now && history == old(history) + [Reset(account)]
    {
      Tick(now);
      ghost var before := client.keys;
      client.Del(CounterKey(AccountKey(account)));
      ghost var e := Reset(account);
      forall key
        ensures CounterMatches(client.keys, history + [e], key, now)
      {
        assert CounterMatches(before, history, key, now);
        if Clears(e, key) {
          AfterReset(history, e, key);
        } else {
          AfterOther(history, e, key);
        }
      }
      forall jti
        ensures RevocationMatches(client.keys, history + [e], jti, now)
      {
        assert RevocationMatches(before, history, jti, now);
        AfterRevocation(history, e, jti);
      }
      history := history + [e];
    }
  }
}
