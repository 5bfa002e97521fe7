/**
 The retrying interceptor's time under its lock, joined with all timed runs of the lock: what
 the length of one handler call decides about exclusion.
 */
module LockedHandlers {
  import opened Common
  import opened RedisStore
  import opened OptimisticLock
  import TimedLock

  /** The lock as the interceptor asks for it. */
  function LockConfig(): TimedLock.Config {
    TimedLock.Config(LOCK_TTL, LOCK_RETRIES)
  }

  /**
   The lease of the timed runs is the cell that the interceptor writes: the same lifetime from
   the same moment, and at most three attempts.
   */
  lemma LeaseIsTheCell(s: TimedLock.State, r: nat, cell: Cell)
    requires TimedLock.Tries(s, r) && s.requests[r].phase.attempt < 3 && s.requests[r].key !in s.leases
    requires cell == Cell(Word("locked"), s.now + 10000)
    ensures LockConfig().retryCount == 3
    ensures var s' := TimedLock.Apply(LockConfig(), s, TimedLock.Attempt(r));
            s.requests[r].key in s'.leases && s'.leases[s.requests[r].key] == TimedLock.Lease(r, cell.expiresAt)
  {
  }

  /** Handler calls of at most `d` each, within the limit, with the pauses, account for the time `t`. */
  ghost predicate Accounted(t: int, maxRetries: nat, delay: nat, d: nat) {
    exists attempts: seq<Attempt> :: Covers(attempts, t, maxRetries, delay, d)
  }

  ghost predicate Covers(attempts: seq<Attempt>, t: int, maxRetries: nat, delay: nat, d: nat) {
    && |attempts| <= maxRetries
    && (forall i :: 0 <= i < |attempts| ==> attempts[i].duration <= d)
    && t <= TimeSpent(attempts, |attempts|, maxRetries, delay)
  }

  /** A run in which every holder spends its time under the lock on handler calls and pauses. */
  ghost predicate HandlerRun(es: seq<TimedLock.Event>, maxRetries: nat, delay: nat, d: nat) {
    forall k, r: nat :: 0 <= k <= |es| ==>
      HolderAccounted(TimedLock.After(LockConfig(), es[..k]), r, maxRetries, delay, d)
  }

  ghost predicate HolderAccounted(s: TimedLock.State, r: nat, maxRetries: nat, delay: nat, d: nat) {
    TimedLock.Holds(s, r) ==> Accounted(s.now - s.requests[r].phase.since, maxRetries, delay, d)
  }

  function LongestSection(maxRetries: nat, delay: nat, d: nat): int {
    maxRetries * d + (maxRetries - 1) * delay
  }

  /** The times that handler calls can account for are those up to the longest section. */
  lemma AccountedExactly(t: int, maxRetries: nat, delay: nat, d: nat)
    requires maxRetries > 0
    ensures Accounted(t, maxRetries, delay, d) <==> t <= LongestSection(maxRetries, delay, d)
  {
    if Accounted(t, maxRetries, delay, d) {
      var attempts :| Covers(attempts, t, maxRetries, delay, d);
      var n := |attempts|;
      HeldAtMost(attempts, n, maxRetries, delay, d);
      var pauses := if n < maxRetries || n == 0 then n else n - 1;
      MulMonotone(n, maxRetries, d);
      MulMonotone(pauses, maxRetries - 1, delay);
    }
    if t <= LongestSection(maxRetries, delay, d) {
      var worst := seq(maxRetries, _ => Attempt(d, Conflict));
      HeldExactly(maxRetries, maxRetries, delay, d);
      assert Covers(worst, t, maxRetries, delay, d);
    }
  }

  lemma HandlerRunIsPrompt(es: seq<TimedLock.Event>, maxRetries: nat, delay: nat, d: nat)
    requires maxRetries > 0
    ensures HandlerRun(es, maxRetries, delay, d)
            <==> TimedLock.PromptRun(LockConfig(), es, LongestSection(maxRetries, delay, d))
  {
    var bound := LongestSection(maxRetries, delay, d);
    forall k | 0 <= k <= |es|
      ensures TimedLock.Prompt(TimedLock.After(LockConfig(), es[..k]), bound)
              <==> forall r: nat :: HolderAccounted(TimedLock.After(LockConfig(), es[..k]), r, maxRetries, delay, d)
    {
      HoldersArePrompt(TimedLock.After(LockConfig(), es[..k]), maxRetries, delay, d);
    }
  }

  lemma HoldersArePrompt(s: TimedLock.State, maxRetries: nat, delay: nat, d: nat)
    requires maxRetries > 0
    ensures TimedLock.Prompt(s, LongestSection(maxRetries, delay, d))
            <==> forall r: nat :: HolderAccounted(s, r, maxRetries, delay, d)
  {
    forall r: nat | TimedLock.Holds(s, r)
      ensures HolderAccounted(s, r, maxRetries, delay, d)
              <==> s.now - s.requests[r].phase.since <= LongestSection(maxRetries, delay, d)
    {
      AccountedExactly(s.now - s.requests[r].phase.since, maxRetries, delay, d);
    }
  }

  /** When all calls and pauses fit in the time to live, sections exclude and releases hit the own key. */
  lemma ShortHandlersExclude(es: seq<TimedLock.Event>, maxRetries: nat, delay: nat, d: nat)
    requires maxRetries > 0 && HandlerRun(es, maxRetries, delay, d)
    requires LongestSection(maxRetries, delay, d) <= LOCK_TTL
    ensures TimedLock.Mutex(TimedLock.After(LockConfig(), es))
    ensures TimedLock.OwnKeys(LockConfig(), TimedLock.After(LockConfig(), es))
  {
    HandlerRunIsPrompt(es, maxRetries, delay, d);
    TimedLock.PromptHoldersOwnTheirKeys(LockConfig(), es, LongestSection(maxRetries, delay, d));
  }

  /** Exclusion in all runs of the interceptor, decided by its configuration and the longest handler call. */
  lemma InterceptorExcludesExactly(maxRetries: nat, delay: nat, d: nat)
    requires maxRetries > 0
    ensures (forall es :: HandlerRun(es, maxRetries, delay, d) ==> TimedLock.Mutex(TimedLock.After(LockConfig(), es)))
            <==> maxRetries * d + (maxRetries - 1) * delay <= 10000
  {
    var c, bound := LockConfig(), LongestSection(maxRetries, delay, d);
    TimedLock.MutexExactly(c, bound);
    forall es
      ensures HandlerRun(es, maxRetries, delay, d) <==> TimedLock.PromptRun(c, es, bound)
    {
      HandlerRunIsPrompt(es, maxRetries, delay, d);
    }
  }

  /** The same decides whether every release deletes the releaser's own key. */
  lemma InterceptorReleasesOwnExactly(maxRetries: nat, delay: nat, d: nat)
    requires maxRetries > 0
    ensures (forall es :: HandlerRun(es, maxRetries, delay, d) ==>
               TimedLock.OwnKeys(LockConfig(), TimedLock.After(LockConfig(), es)))
            <==> maxRetries * d + (maxRetries - 1) * delay <= 10000
  {
    var c, bound := LockConfig(), LongestSection(maxRetries, delay, d);
    TimedLock.OwnKeysExactly(c, bound);
    forall es
      ensures HandlerRun(es, maxRetries, delay, d) <==> TimedLock.PromptRun(c, es, bound)
    {
      HandlerRunIsPrompt(es, maxRetries, delay, d);
    }
  }
}
