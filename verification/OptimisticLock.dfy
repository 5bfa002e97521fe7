/** The retrying interceptor: Redis lock, a bounded number of handler attempts, release. */
module OptimisticLock {
  import opened Common
  import opened RedisStore
  import opened RedisLock

  /** How one call of the wrapped handler ends. */
  datatype HandlerResult = Returned(value: int) | Conflict | OtherError

  datatype Attempt = Attempt(duration: nat, result: HandlerResult)

  datatype Outcome = Success(value: int) | Busy | Rejected | LockFailed

  const LOCK_TTL := 10000
  const LOCK_RETRIES := 3
  const LOCK_RETRY_DELAY := 100

  /** Time spent on the first `n` attempts, with the pause after each conflict that is retried. */
  function TimeSpent(attempts: seq<Attempt>, n: nat, maxRetries: int, delay: int): int
    requires n <= |attempts|
  {
    if n == 0 then 0
    else
      TimeSpent(attempts, n - 1, maxRetries, delay) + attempts[n - 1].duration
      + if attempts[n - 1].result.Conflict? && n - 1 < maxRetries - 1 then delay else 0
  }

  class OptimisticLockInterceptor {
    const locks: RedisDistributedLockService

    constructor (locks: RedisDistributedLockService)
      ensures this.locks == locks
    {
      this.locks := locks;
    }

    /**
     The handler runs only under the lock, at most `maxRetries` times, again only after a
     version conflict; its value is returned exactly when some attempt within the limit
     returns and all before it conflicted. Once acquired, the release is called on every path.
     `section` is the store when the handler starts, `at` the lock attempt that got through,
     and `slept` the time spent waiting for the lock.
     */
    method Execute(name: string, maxRetriesOption: Option<int>, retryDelayOption: Option<int>,
                   worlds: seq<World>, clock: seq<int>, attempts: seq<Attempt>, after: Store,
                   releaseFails: bool)
      returns (r: Outcome, calls: nat, heldFor: int, slept: nat, at: nat, ghost section: Store)
      requires locks.redis.Valid() && WellFormed(after)
      requires |worlds| == |clock| >= LOCK_RETRIES
      requires forall w :: w in worlds && w.Some? ==> WellFormed(w.value)
      requires |attempts| >= OrDefault(maxRetriesOption, 3)
      modifies locks.redis
      ensures locks.redis.Valid()
      ensures (r.Busy? || r.LockFailed?) <==> forall i :: 0 <= i < LOCK_RETRIES ==> !Free(worlds[i], name)
      ensures r.LockFailed? ==> worlds[LOCK_RETRIES - 1].None?
      ensures r.Busy? ==> worlds[LOCK_RETRIES - 1].Some?
      ensures r.Busy? || r.LockFailed? ==>
                && calls == 0 && heldFor == 0
                && locks.redis.testLocks == LeftBy(old(locks.redis.testLocks), worlds, LOCK_RETRIES)
      ensures !(r.Busy? || r.LockFailed?) ==>
                locks.redis.testLocks == if releaseFails then after else after - {Lock(name)}
      ensures r.Busy? || r.LockFailed? ==> slept == 100 * Pauses(worlds, 3, 3)
      ensures !(r.Busy? || r.LockFailed?) ==>
                && at < 3 && Free(worlds[at], name) && (forall i :: 0 <= i < at ==> !Free(worlds[i], name))
                && section == worlds[at].value[Lock(name) := Cell(Word("locked"), clock[at] + 10000)]
                && slept == 100 * Pauses(worlds, at, 3)
      ensures calls <= Max(OrDefault(maxRetriesOption, 3), 0)
      ensures calls <= |attempts|
      ensures forall i :: 0 <= i < calls - 1 ==> attempts[i].result.Conflict?
      ensures r.Success? ==> calls > 0 && attempts[calls - 1].result == Returned(r.value)
      ensures r.Rejected? ==> (calls > 0 && attempts[calls - 1].result.OtherError?)
                              || (calls == Max(OrDefault(maxRetriesOption, 3), 0)
                                  && forall i :: 0 <= i < calls ==> attempts[i].result.Conflict?)
      ensures heldFor == TimeSpent(attempts, calls, OrDefault(maxRetriesOption, 3), OrDefault(retryDelayOption, 100))
    {
      var got, tries;
      got, tries, slept := locks.AcquireLock(name, LOCK_TTL, LOCK_RETRIES, LOCK_RETRY_DELAY, worlds, clock);
      calls, heldFor, at, section := 0, 0, 0, locks.redis.testLocks;
      if got.Threw? {
        r := LockFailed;
        return;
      }
      if got.NotGot? {
        r := Busy;
        return;
      }
      at := tries - 1;
      var maxRetries := OrDefault(maxRetriesOption, 3);
      var retryDelay := OrDefault(retryDelayOption, 100);
      r := Rejected;
      var attempt := 0;
      while attempt < maxRetries
        invariant 0 <= attempt <= Max(maxRetries, 0) && calls == attempt
        invariant r == Rejected
        invariant forall i :: 0 <= i < attempt ==> attempts[i].result.Conflict?
        invariant heldFor == TimeSpent(attempts, attempt, maxRetries, retryDelay)
        invariant locks.redis.Valid()
        decreases maxRetries - attempt
      {
        calls := calls + 1;
        heldFor := heldFor + attempts[attempt].duration;
        match attempts[attempt].result {
          case Returned(v) =>
            r := Success(v);
            break;
          case Conflict =>
            if attempt < maxRetries - 1 {
              heldFor := heldFor + retryDelay;
            }
          case OtherError =>
            break;
        }
        attempt := attempt + 1;
      }
      locks.redis.testLocks := after;
      var released := locks.ReleaseLock(name, releaseFails);
    }
  }

  // ----- how long the lock is held

  /** Time spent on the first `n` calls themselves. */
  function Durations(attempts: seq<Attempt>, n: nat): nat
    requires n <= |attempts|
  {
    if n == 0 then 0 else Durations(attempts, n - 1) + attempts[n - 1].duration
  }

  /** The time under the lock of a call that conflicts until its last attempt: the attempts, and a pause between two. */
  lemma {:induction false} TimeSpentExactly(attempts: seq<Attempt>, n: nat, maxRetries: int, delay: int)
    requires 0 < n <= |attempts| && n <= maxRetries
    requires forall i :: 0 <= i < n - 1 ==> attempts[i].result.Conflict?
    ensures TimeSpent(attempts, n, maxRetries, delay)
            == Durations(attempts, n)
               + (n - 1 + if attempts[n - 1].result.Conflict? && n < maxRetries then 1 else 0) * delay
  {
    if n > 1 {
      TimeSpentExactly(attempts, n - 1, maxRetries, delay);
      assert (n - 1) * delay == (n - 2) * delay + delay;
    }
  }

  /** With every call bounded by d, the lock is held at most maxRetries * d plus the pauses between. */
  lemma {:induction false} HeldAtMost(attempts: seq<Attempt>, n: nat, maxRetries: int, delay: nat, d: nat)
    requires n <= |attempts| && n <= maxRetries
    requires forall i :: 0 <= i < n ==> attempts[i].duration <= d
    ensures TimeSpent(attempts, n, maxRetries, delay) <= n * d + (if n < maxRetries || n == 0 then n else n - 1) * delay
  {
    if n > 0 {
      HeldAtMost(attempts, n - 1, maxRetries, delay, d);
      assert n * d == (n - 1) * d + d;
      assert n * delay == (n - 1) * delay + delay;
    }
  }

  /** The bound is reached: every call takes d and conflicts. */
  lemma {:induction false} HeldExactly(n: nat, maxRetries: int, delay: nat, d: nat)
    requires n <= maxRetries
    ensures TimeSpent(seq(maxRetries, _ => Attempt(d, Conflict)), n, maxRetries, delay)
            == n * d + (if n < maxRetries || n == 0 then n else n - 1) * delay
  {
    if n > 0 {
      HeldExactly(n - 1, maxRetries, delay, d);
      assert n * d == (n - 1) * d + d;
      assert n * delay == (n - 1) * delay + delay;
    }
  }

  /**
   The lock's 10 seconds cover every possible sequence of handler attempts exactly when
   the calls are short enough for the retries and pauses configured.
   */
  lemma LockCoversAttemptsExactly(maxRetries: nat, delay: nat, d: nat)
    requires maxRetries > 0
    ensures (forall attempts: seq<Attempt>, n: nat ::
               n <= |attempts| && n <= maxRetries && (forall i :: 0 <= i < n ==> attempts[i].duration <= d)
               ==> TimeSpent(attempts, n, maxRetries, delay) <= LOCK_TTL)
            <==> maxRetries * d + (maxRetries - 1) * delay <= LOCK_TTL
  {
    var worst := seq(maxRetries, _ => Attempt(d, Conflict));
    HeldExactly(maxRetries, maxRetries, delay, d);
    if maxRetries * d + (maxRetries - 1) * delay <= LOCK_TTL {
      forall attempts: seq<Attempt>, n: nat |
          n <= |attempts| && n <= maxRetries && (forall i :: 0 <= i < n ==> attempts[i].duration <= d)
        ensures TimeSpent(attempts, n, maxRetries, delay) <= LOCK_TTL
      {
        HeldAtMost(attempts, n, maxRetries, delay, d);
        var pauses := if n < maxRetries || n == 0 then n else n - 1;
        MulMonotone(n, maxRetries, d);
        MulMonotone(pauses, maxRetries - 1, delay);
      }
    } else {
      assert |worst| == maxRetries && forall i :: 0 <= i < maxRetries ==> worst[i].duration <= d;
      assert TimeSpent(worst, maxRetries, maxRetries, delay) > LOCK_TTL;
    }
  }

  lemma MulMonotone(a: nat, b: nat, c: nat)
    requires a <= b
    ensures a * c <= b * c
  {
  }
}
