/** The store that keeps counters and revocations in two maps and forgets them lazily. */
module MemoryStores {
  import opened SessionModel
  import opened AuthHistory

  datatype MemoryCounter = MemoryCounter(count: int, expiresAt: int)

  /** The failure just recorded is in an open window if windows are not empty. */
  lemma WaitIsRetry(h: History, e: Event, key: Key, limit: int)
    requires Hits(e, key) && e.window > 0
    ensures KeyWait(h + [e], key, limit, e.at) == KeyRetry(h + [e], key, limit, e.at)
  {
    AfterFailure(h, e, key);
  }

  class MemoryStore {
    var revoked: map<string, int>
    var counters: map<Key, MemoryCounter>
    /** The mutations so far, and the last reading of the clock. */
    ghost var history: History
    ghost var clock: int

    ghost predicate Valid()
      reads this
    {
      && (forall key {:trigger CounterMatches(counters, history, key, clock)} ::
          CounterMatches(counters, history, key, clock))
      && (forall jti {:trigger RevocationMatches(revoked, history, jti, clock)} ::
          RevocationMatches(revoked, history, jti, clock))
    }

    /** A kept counter is the last window; a missing one has no window that is still open. */
    static ghost predicate CounterMatches(counters: map<Key, MemoryCounter>, history: History, key: Key, clock: int) {
      if key in counters
      then Opening(history, key).Some? && counters[key] == MemoryCounter(Count(history, key), Deadline(history, key))
      else !Open(history, key, clock)
    }

    static ghost predicate RevocationMatches(revoked: map<string, int>, history: History, jti: string, clock: int) {
      if jti in revoked then RevokedUntil(history, jti) == Some(revoked[jti]) else !IsRevoked(history, jti, clock)
    }

    constructor ()
      ensures Valid() && history == []
      ensures clock == 0
    {
      revoked, counters := map[], map[];
      history, clock := [], 0;
    }

    /** Time only passes. */
    ghost method Tick(now: int)
      requires Valid() && clock <= now
      modifies `clock
      ensures Valid() && clock == now
    {
      forall key
        ensures CounterMatches(counters, history, key, now)
      {
        assert CounterMatches(counters, history, key, clock);
      }
      forall jti
        ensures RevocationMatches(revoked, history, jti, now)
      {
        assert RevocationMatches(revoked, history, jti, clock);
      }
      clock := now;
    }

    method RevokeAccessToken(jti: string, ttl: int, now: int)
      requires Valid() && clock <= now
      modifies this
      ensures Valid() && clock == now
      ensures history == old(history) + (if ttl <= 0 then [] else [Revocation(jti, now, ttl)])
    {
      Tick(now);
      if ttl <= 0 {
        return;
      }
      var e := Revocation(jti, now, ttl);
      forall key
        ensures CounterMatches(counters, history + [e], key, now)
      {
        assert CounterMatches(counters, history, key, now);
        AfterOther(history, e, key);
      }
      ghost var before := revoked;
      revoked := revoked[jti := now + ttl];
      forall j
        ensures RevocationMatches(revoked, history + [e], j, now)
      {
        assert RevocationMatches(before, history, j, now);
        AfterRevocation(history, e, j);
      }
      history := history + [e];
    }

    method IsAccessTokenRevoked(jti: string, now: int) returns (answer: bool)
      requires Valid() && clock <= now
      modifies this
      ensures Valid() && clock == now && history == old(history)
      ensures answer <==> IsRevoked(history, jti, now)
    {
      Tick(now);
      assert RevocationMatches(revoked, history, jti, now);
      if jti !in revoked {
        return false;
      }
      var expiresAt := revoked[jti];
      if expiresAt <= now {
        forall j
          ensures RevocationMatches(revoked - {jti}, history, j, now)
        {
          assert RevocationMatches(revoked, history, j, now);
        }
        revoked := revoked - {jti};
        return false;
      }
      return true;
    }

    method CheckLoginLimit(account: string, ip: string, accountLimit: int, ipLimit: int, window: int, now: int)
      returns (retry: int)
      requires Valid() && clock <= now
      modifies this
      ensures Valid() && clock == now && history == old(history)
      ensures retry == Retry(history, account, ip, accountLimit, ipLimit, now)
    {
      Tick(now);
      var accountRetry := CounterRetryAfter(AccountKey(account), accountLimit, now);
      var ipRetry := CounterRetryAfter(IpKey(ip), ipLimit, now);
      retry := Max(accountRetry, ipRetry);
    }

    method CounterRetryAfter(key: Key, limit: int, now: int) returns (retry: int)
      requires Valid() && clock == now
      modifies `counters
      ensures Valid()
      ensures retry == KeyRetry(history, key, limit, now)
      ensures counters == if key in old(counters) && old(counters)[key].expiresAt <= now
                          then old(counters) - {key} else old(counters)
    {
      assert CounterMatches(counters, history, key, now);
      if key !in counters {
        return 0;
      }
      var counter := counters[key];
      if counter.expiresAt <= now {
        forall k
          ensures CounterMatches(counters - {key}, history, k, now)
        {
          assert CounterMatches(counters, history, k, now);
        }
        counters := counters - {key};
        return 0;
      }
      if counter.count < limit {
        return 0;
      }
      retry := counter.expiresAt - now;
    }

    method RecordLoginFailure(account: string, ip: string, accountLimit: int, ipLimit: int, window: int, now: int)
      returns (retry: int)
      requires Valid() && clock <= now
      modifies this
      ensures Valid() && clock == now && history == old(history) + [Failure(account, ip, now, window)]
      ensures retry == Max(KeyWait(history, AccountKey(account), accountLimit, now),
                           KeyWait(history, IpKey(ip), ipLimit, now))
      ensures window > 0 ==> retry == Retry(history, account, ip, accountLimit, ipLimit, now)
    {
      Tick(now);
      var e := Failure(account, ip, now, window);
      ghost var before := counters;
      assert CounterMatches(before, history, AccountKey(account), now);
      assert CounterMatches(before, history, IpKey(ip), now);
      var accountCounter := IncrementCounter(AccountKey(account), now, window, e);
      var ipCounter := IncrementCounter(IpKey(ip), now, window, e);
      RecordKeepsCounters(before, counters, history, e, now);
      RecordKeepsRevocations(revoked, history, e, now);
      if window > 0 {
        WaitIsRetry(history, e, AccountKey(account), accountLimit);
        WaitIsRetry(history, e, IpKey(ip), ipLimit);
      }
      history := history + [e];
      var accountRetry := 0;
      if accountCounter.count >= accountLimit {
        accountRetry := accountCounter.expiresAt - now;
      }
      var ipRetry := 0;
      if ipCounter.count >= ipLimit {
        ipRetry := ipCounter.expiresAt - now;
      }
      retry := Max(accountRetry, ipRetry);
    }

    /** Only the two counters of the failure changed, and both are right. */
    static lemma RecordKeepsCounters(before: map<Key, MemoryCounter>, counters: map<Key, MemoryCounter>,
                                     h: History, e: Event, now: int)
      requires forall key {:trigger CounterMatches(before, h, key, now)} :: CounterMatches(before, h, key, now)
      requires e.Failure? && CounterMatches(counters, h + [e], AccountKey(e.account), now)
      requires CounterMatches(counters, h + [e], IpKey(e.ip), now)
      requires forall key | !Hits(e, key) ::
                 (key in counters <==> key in before) && (key in counters ==> counters[key] == before[key])
      ensures forall key {:trigger CounterMatches(counters, h + [e], key, now)} ::
                CounterMatches(counters, h + [e], key, now)
    {
      forall key
        ensures CounterMatches(counters, h + [e], key, now)
      {
        assert CounterMatches(before, h, key, now);
        if !Hits(e, key) {
          AfterOther(h, e, key);
        }
      }
    }

    static lemma RecordKeepsRevocations(revoked: map<string, int>, h: History, e: Event, now: int)
      requires forall jti {:trigger RevocationMatches(revoked, h, jti, now)} :: RevocationMatches(revoked, h, jti, now)
      requires e.Failure?
      ensures forall jti {:trigger RevocationMatches(revoked, h + [e], jti, now)} ::
                RevocationMatches(revoked, h + [e], jti, now)
    {
      forall jti
        ensures RevocationMatches(revoked, h + [e], jti, now)
      {
        assert RevocationMatches(revoked, h, jti, now);
        AfterRevocation(h, e, jti);
      }
    }

    /** Counts the failure `e` against one of its two keys. */
    method IncrementCounter(key: Key, now: int, window: int, ghost e: Event) returns (counter: MemoryCounter)
      requires CounterMatches(counters, history, key, now)
      requires Hits(e, key) && e.at == now && e.window == window
      modifies `counters
      ensures counters == old(counters)[key := counter]
      ensures CounterMatches(counters, history + [e], key, now)
      ensures window > 0 ==> now < counter.expiresAt
    {
      AfterFailure(history, e, key);
      var ok := key in counters;
      counter := if ok then counters[key] else MemoryCounter(0, 0);
      if !ok || counter.expiresAt <= now {
        counter := MemoryCounter(0, now + window);
      }
      counter := counter.(count := counter.count + 1);
      counters := counters[key := counter];
    }

    method ResetLoginAccount(account: string, now: int)
      requires Valid() && clock <= now
      modifies this
      ensures Valid() && clock == now && history == old(history) + [Reset(account)]
    {
      Tick(now);
      var e := Reset(account);
      forall key
        ensures CounterMatches(counters - {AccountKey(account)}, history + [e], key, now)
      {
        assert CounterMatches(counters, history, key, now);
        if Clears(e, key) {
          AfterReset(history, e, key);
        } else {
          AfterOther(history, e, key);
        }
      }
      forall jti
        ensures RevocationMatches(revoked, history + [e], jti, now)
      {
        assert RevocationMatches(revoked, history, jti, now);
        AfterRevocation(history, e, jti);
      }
      counters := counters - {AccountKey(account)};
      history := history + [e];
    }
  }
}
