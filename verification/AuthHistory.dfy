/**
 What the authentication state store means: its answers are functions of the failures, resets and
 revocations recorded so far and of the time. Times are milliseconds.
 */
module AuthHistory {
  import opened SessionModel

  const SECOND := 1000

  /** The two failure counters; the digests behind the stored keys are injective. */
  datatype Key = AccountKey(account: string) | IpKey(ip: string)

  datatype Event =
    | Failure(account: string, ip: string, at: int, window: int)
    | Reset(account: string)
    | Revocation(jti: string, at: int, ttl: int)

  type History = seq<Event>

  predicate Hits(e: Event, key: Key) {
    e.Failure? && (key == AccountKey(e.account) || key == IpKey(e.ip))
  }

  predicate Clears(e: Event, key: Key) {
    e.Reset? && key == AccountKey(e.account)
  }

  /** The failure that opened the counter's last window, unless a reset came after. */
  function Opening(h: History, key: Key): (o: Option<nat>)
    ensures o.Some? ==> o.value < |h| && Hits(h[o.value], key)
  {
    if h == [] then None
    else
      var e := h[|h| - 1];
      var o := Opening(h[..|h| - 1], key);
      if Hits(e, key) then
        if o.Some? && e.at < h[o.value].at + h[o.value].window then o else Some(|h| - 1)
      else if Clears(e, key) then None
      else o
  }

  function Failures(h: History, key: Key): nat {
    if h == [] then 0 else Failures(h[..|h| - 1], key) + (if Hits(h[|h| - 1], key) then 1 else 0)
  }

  /** When the last window ends. */
  function Deadline(h: History, key: Key): int
    requires Opening(h, key).Some?
  {
    var e := h[Opening(h, key).value];
    e.at + e.window
  }

  /** Failures since the last window opened. */
  function Count(h: History, key: Key): nat
    requires Opening(h, key).Some?
  {
    Failures(h[Opening(h, key).value..], key)
  }

  predicate Open(h: History, key: Key, now: int) {
    Opening(h, key).Some? && now < Deadline(h, key)
  }

  /** Failures counted against the key now. */
  function LiveCount(h: History, key: Key, now: int): nat {
    if Open(h, key, now) then Count(h, key) else 0
  }

  function KeyRetry(h: History, key: Key, limit: int, now: int): int {
    if Open(h, key, now) && Count(h, key) >= limit then Deadline(h, key) - now else 0
  }

  function Max(a: int, b: int): int { if a > b then a else b }

  /** How long a login of this account from this address has to wait. */
  function Retry(h: History, account: string, ip: string, accountLimit: int, ipLimit: int, now: int): int {
    Max(KeyRetry(h, AccountKey(account), accountLimit, now), KeyRetry(h, IpKey(ip), ipLimit, now))
  }

  /** What the failure just recorded is told of one key, whether or not its window is open. */
  function KeyWait(h: History, key: Key, limit: int, now: int): int {
    if Opening(h, key).Some? && Count(h, key) >= limit then Deadline(h, key) - now else 0
  }

  /** When the last revocation of the JTI ends. */
  function RevokedUntil(h: History, jti: string): Option<int> {
    if h == [] then None
    else
      var e := h[|h| - 1];
      if e.Revocation? && e.jti == jti then Some(e.at + e.ttl) else RevokedUntil(h[..|h| - 1], jti)
  }

  predicate IsRevoked(h: History, jti: string, now: int) {
    RevokedUntil(h, jti).Some? && now < RevokedUntil(h, jti).value
  }

  // ---------- one more event ----------

  lemma Grown(h: History, e: Event)
    ensures (h + [e])[..|h + [e]| - 1] == h && (h + [e])[|h + [e]| - 1] == e
  {
  }

  lemma AfterJoining(h: History, e: Event, key: Key)
    requires Hits(e, key) && Open(h, key, e.at)
    ensures Opening(h + [e], key) == Opening(h, key)
    ensures Count(h + [e], key) == Count(h, key) + 1 && Deadline(h + [e], key) == Deadline(h, key)
  {
    Grown(h, e);
    var o := Opening(h, key).value;
    Grown(h[o..], e);
    assert (h + [e])[o..] == h[o..] + [e];
  }

  lemma AfterOpening(h: History, e: Event, key: Key)
    requires Hits(e, key) && !Open(h, key, e.at)
    ensures Opening(h + [e], key) == Some(|h|)
    ensures Count(h + [e], key) == 1 && Deadline(h + [e], key) == e.at + e.window
  {
    Grown(h, e);
    assert (h + [e])[|h|..] == [e];
    assert Failures([], key) == 0;
  }

  /** A failure joins the open window of its key or opens a new one. */
  lemma AfterFailure(h: History, e: Event, key: Key)
    requires Hits(e, key)
    ensures Opening(h + [e], key).Some?
    ensures Open(h, key, e.at) ==>
              Count(h + [e], key) == Count(h, key) + 1 && Deadline(h + [e], key) == Deadline(h, key)
    ensures !Open(h, key, e.at) ==> Count(h + [e], key) == 1 && Deadline(h + [e], key) == e.at + e.window
  {
    if Open(h, key, e.at) {
      AfterJoining(h, e, key);
    } else {
      AfterOpening(h, e, key);
    }
  }

  /** Other events leave the key's window alone. */
  lemma AfterOther(h: History, e: Event, key: Key)
    requires !Hits(e, key) && !Clears(e, key)
    ensures Opening(h + [e], key) == Opening(h, key)
    ensures Opening(h, key).Some? ==>
              Count(h + [e], key) == Count(h, key) && Deadline(h + [e], key) == Deadline(h, key)
  {
    Grown(h, e);
    if Opening(h, key).Some? {
      var o := Opening(h, key).value;
      Grown(h[o..], e);
      assert (h + [e])[o..] == h[o..] + [e];
    }
  }

  lemma AfterReset(h: History, e: Event, key: Key)
    requires Clears(e, key)
    ensures Opening(h + [e], key).None?
  {
    Grown(h, e);
  }

  lemma AfterRevocation(h: History, e: Event, jti: string)
    ensures RevokedUntil(h + [e], jti) == if e.Revocation? && e.jti == jti then Some(e.at + e.ttl)
                                          else RevokedUntil(h, jti)
  {
    Grown(h, e);
  }

  // ---------- what a window is ----------

  /** The window holds every failure since it opened, all before its end, with no reset among them. */
  lemma {:induction false} WindowIsExact(h: History, key: Key)
    requires Opening(h, key).Some?
    ensures forall i | Opening(h, key).value < i < |h| ::
              !Clears(h[i], key) && (Hits(h[i], key) ==> h[i].at < Deadline(h, key))
    decreases |h|
  {
    var init := h[..|h| - 1];
    var e := h[|h| - 1];
    assert h == init + [e];
    if Opening(h, key).value < |h| - 1 {
      if Hits(e, key) {
        AfterFailure(init, e, key);
      } else {
        AfterOther(init, e, key);
      }
      WindowIsExact(init, key);
    }
  }

  // ---------- what each event does to the counts ----------

  /** No failure, no count; and a count stays what it is until its window ends, then it is 0. */
  lemma CountRunsOut(h: History, key: Key, now: int, later: int)
    requires now <= later
    ensures LiveCount([], key, now) == 0
    ensures LiveCount(h, key, later) == LiveCount(h, key, now) || LiveCount(h, key, later) == 0
  {
  }

  lemma {:induction false} FirstCounts(h: History, key: Key)
    requires h != [] && Hits(h[0], key)
    ensures Failures(h, key) > 0
  {
    if |h| > 1 {
      FirstCounts(h[..|h| - 1], key);
    }
  }

  /** An open window holds at least the failure that opened it. */
  lemma OpenWindowCounts(h: History, key: Key)
    ensures Opening(h, key).Some? ==> Count(h, key) > 0
  {
    if Opening(h, key).Some? {
      var o := Opening(h, key).value;
      FirstCounts(h[o..], key);
    }
  }

  /** A failure adds one to its account and its address for as long as their windows are open, and to nothing else. */
  lemma FailureAdds(h: History, account: string, ip: string, at: int, window: int, key: Key, now: int)
    requires at <= now && window > 0
    ensures var h' := h + [Failure(account, ip, at, window)];
            if key != AccountKey(account) && key != IpKey(ip) then LiveCount(h', key, now) == LiveCount(h, key, now)
            else if LiveCount(h, key, at) > 0 then
              LiveCount(h', key, now) == if LiveCount(h, key, now) > 0 then LiveCount(h, key, now) + 1 else 0
            else LiveCount(h', key, now) == if now < at + window then 1 else 0
  {
    var e := Failure(account, ip, at, window);
    if Hits(e, key) {
      OpenWindowCounts(h, key);
      AfterFailure(h, e, key);
    } else {
      AfterOther(h, e, key);
    }
  }

  /** A reset brings the count of its account to 0; addresses and other accounts keep theirs. */
  lemma ResetCounts(h: History, account: string, key: Key, now: int)
    ensures LiveCount(h + [Reset(account)], key, now) ==
            if key == AccountKey(account) then 0 else LiveCount(h, key, now)
  {
    if key == AccountKey(account) {
      AfterReset(h, Reset(account), key);
    } else {
      AfterOther(h, Reset(account), key);
    }
  }

  lemma RevocationCounts(h: History, jti: string, at: int, ttl: int, key: Key, now: int)
    ensures LiveCount(h + [Revocation(jti, at, ttl)], key, now) == LiveCount(h, key, now)
  {
    AfterOther(h, Revocation(jti, at, ttl), key);
  }

  // ---------- what the answers mean ----------

  /** Some limit is reached. */
  predicate Blocked(h: History, account: string, ip: string, accountLimit: int, ipLimit: int, now: int) {
    LiveCount(h, AccountKey(account), now) >= accountLimit || LiveCount(h, IpKey(ip), now) >= ipLimit
  }

  /** The wait is the time until no limit is reached any more, to the millisecond. */
  lemma WaitIsExact(h: History, account: string, ip: string, accountLimit: int, ipLimit: int, now: int, passed: nat)
    requires accountLimit > 0 && ipLimit > 0
    ensures Retry(h, account, ip, accountLimit, ipLimit, now) >= 0
    ensures Blocked(h, account, ip, accountLimit, ipLimit, now + passed) <==>
            passed < Retry(h, account, ip, accountLimit, ipLimit, now)
  {
  }

  /** A JTI is revoked by its last revocation, for the lifetime of that one, and by nothing else. */
  lemma {:induction false} LastRevocationDecides(h: History, jti: string, i: nat, now: int)
    requires forall k | i <= k < |h| :: !(h[k].Revocation? && h[k].jti == jti)
    requires i <= |h| && (i > 0 ==> h[i - 1].Revocation? && h[i - 1].jti == jti)
    ensures IsRevoked(h, jti, now) <==> i > 0 && now < h[i - 1].at + h[i - 1].ttl
  {
    if i < |h| {
      LastRevocationDecides(h[..|h| - 1], jti, i, now);
    }
  }
}
