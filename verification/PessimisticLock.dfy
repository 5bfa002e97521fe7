/**
 The two-layer lock of one process: a Redis key first, then an entry in the process's own map.
 The Redis key may vanish at any moment; the map alone must keep the section exclusive.
 */
module PessimisticLock {
  import opened Common
  import opened RedisStore
  import opened RedisLock

  // ----- one request

  datatype HandlerEnd = Value(value: int) | Thrown

  datatype Outcome = RedisFailed | RedisBusy | LocalBusy | Ran(end: HandlerEnd)

  const REDIS_RETRIES := 3

  /** The name of the Redis lock beside the local key. */
  function Global(key: string): string {
    "global:" + key
  }

  class PessimisticLockInterceptor {
    const redisLocks: RedisDistributedLockService
    /** The keys of the map; every stored value is `true`. */
    var locks: set<string>

    constructor (redisLocks: RedisDistributedLockService)
      ensures this.redisLocks == redisLocks && locks == {}
    {
      this.redisLocks, locks := redisLocks, {};
    }

    /**
     The handler runs exactly when both layers were acquired, and its result is what the caller
     gets. Whatever happens inside, both entries are removed again from what others left; a
     caller that got only the Redis key gives it back and leaves the map alone. `section` is the
     store once the Redis key is written, `at` the attempt that wrote it, `slept` the wait for it.
     */
    method ExecuteWithPessimisticLockAndRedisLock(key: string, timeoutOption: Option<int>, handler: HandlerEnd,
                                                  worlds: seq<World>, askClock: seq<int>,
                                                  pollClock: seq<int>, others: seq<set<string>>,
                                                  mapAfter: set<string>, storeAfter: Store, releaseFails: bool)
      returns (r: Outcome, polls: nat, slept: nat, at: nat, ghost section: Store)
      requires redisLocks.redis.Valid() && WellFormed(storeAfter)
      requires |worlds| == |askClock| >= REDIS_RETRIES
      requires forall w :: w in worlds && w.Some? ==> WellFormed(w.value)
      requires |pollClock| == |others| + 2
      requires pollClock[|pollClock| - 1] - pollClock[0] >= OrDefault(timeoutOption, 5000)
      modifies this, redisLocks.redis
      ensures redisLocks.redis.Valid() && polls <= |others|
      ensures (r.RedisBusy? || r.RedisFailed?) <==> forall i :: 0 <= i < REDIS_RETRIES ==> !Free(worlds[i], Global(key))
      ensures r.RedisFailed? ==> worlds[REDIS_RETRIES - 1].None?
      ensures r.RedisBusy? ==> worlds[REDIS_RETRIES - 1].Some?
      ensures r.RedisBusy? || r.RedisFailed? ==>
                && locks == old(locks)
                && redisLocks.redis.testLocks == LeftBy(old(redisLocks.redis.testLocks), worlds, REDIS_RETRIES)
      ensures !(r.RedisBusy? || r.RedisFailed?) ==>
                (r == Ran(handler) <==> pollClock[polls + 1] - pollClock[0] < OrDefault(timeoutOption, 5000)
                                        && key !in Seen(old(locks), others, polls))
                && (r == Ran(handler) || r.LocalBusy?)
                && redisLocks.redis.testLocks == if releaseFails then storeAfter else storeAfter - {Lock(Global(key))}
      ensures r.RedisBusy? || r.RedisFailed? ==> slept == 100 * Pauses(worlds, 3, 3)
      ensures !(r.RedisBusy? || r.RedisFailed?) ==>
                && at < 3 && Free(worlds[at], Global(key))
                && (forall i :: 0 <= i < at ==> !Free(worlds[i], Global(key)))
                && section == worlds[at].value[
                     Lock("global:" + key) := Cell(Word("locked"), askClock[at] + OrDefault(timeoutOption, 5000))]
                && slept == 100 * Pauses(worlds, at, 3)
      ensures r.Ran? ==> locks == mapAfter - {key}
      ensures r.LocalBusy? ==> locks == Seen(old(locks), others, polls)
                               && pollClock[polls + 1] - pollClock[0] >= OrDefault(timeoutOption, 5000)
    {
      var timeout := OrDefault(timeoutOption, 5000);
      polls := 0;
      var got, tries;
      got, tries, slept := redisLocks.AcquireLock(Global(key), timeout, REDIS_RETRIES, 100, worlds, askClock);
      at, section := 0, redisLocks.redis.testLocks;
      if got.Threw? {
        r := RedisFailed;
        return;
      }
      if got.NotGot? {
        r := RedisBusy;
        return;
      }
      at := tries - 1;
      var acquired;
      acquired, polls := AcquirePessimisticLock(key, timeout, pollClock, others);
      if acquired {
        r := Ran(handler);
        locks := mapAfter;
        ReleasePessimisticLock(key);
      } else {
        r := LocalBusy;
      }
      redisLocks.redis.testLocks := storeAfter;
      var released := redisLocks.ReleaseLock(Global(key), releaseFails);
    }

    /**
     Polls until the key is absent or the time is up. `clock[0]` is the start, `clock[i + 1]`
     the reading before poll i, and `others[i]` the map that other requests leave after the
     pause that follows poll i.
     */
    method AcquirePessimisticLock(key: string, timeout: int, clock: seq<int>, others: seq<set<string>>)
      returns (acquired: bool, polls: nat)
      requires |clock| == |others| + 2
      requires clock[|clock| - 1] - clock[0] >= timeout
      modifies this
      ensures polls <= |others|
      ensures forall i: nat :: i < polls ==> Blocked(key, timeout, clock, old(locks), others, i)
      ensures acquired <==> clock[polls + 1] - clock[0] < timeout && key !in Seen(old(locks), others, polls)
      ensures !acquired ==> clock[polls + 1] - clock[0] >= timeout
      ensures locks == Seen(old(locks), others, polls) + if acquired then {key} else {}
    {
      polls := 0;
      while clock[polls + 1] - clock[0] < timeout
        invariant polls <= |others|
        invariant locks == Seen(old(locks), others, polls)
        invariant forall i: nat :: i < polls ==> Blocked(key, timeout, clock, old(locks), others, i)
        decreases |others| - polls
      {
        if key !in locks {
          locks := locks + {key};
          return true, polls;
        }
        assert Blocked(key, timeout, clock, old(locks), others, polls);
        locks := others[polls];
        polls := polls + 1;
      }
      return false, polls;
    }

    method ReleasePessimisticLock(key: string)
      modifies this
      ensures locks == old(locks) - {key}
    {
      locks := locks - {key};
    }
  }

  /** The map at poll i. */
  function Seen(start: set<string>, others: seq<set<string>>, i: nat): set<string>
    requires i <= |others|
  {
    if i == 0 then start else others[i - 1]
  }

  /** Poll i comes in time and meets the key. */
  predicate Blocked(key: string, timeout: int, clock: seq<int>, start: set<string>, others: seq<set<string>>, i: nat)
    requires i <= |others| && |clock| == |others| + 2
  {
    clock[i + 1] - clock[0] < timeout && key in Seen(start, others, i)
  }

  // ----- all requests of the process, interleaved

  datatype Config = Config(timeout: int, retryCount: nat)

  datatype Phase =
    | AskingRedis(attempt: nat)
    | Polling(start: int)
    | Inside
    | LeavingRedis     // in the outer `finally`
    | Done
    | TurnedAway       // the Redis key was never acquired

  datatype Request = Request(key: string, phase: Phase)

  datatype State = State(now: int, redis: set<string>, locks: set<string>, requests: seq<Request>)

  datatype Event =
    | Tick(delta: nat)
    | Arrive(key: string)
    | AskRedis(request: nat)
    | LoseRedisKey(key: string)
    | Poll(request: nat)
    | Finish(request: nat)
    | LeaveRedis(request: nat)

  function Start(): State {
    State(0, {}, {}, [])
  }

  function MoveTo(s: State, r: nat, p: Phase): State
    requires r < |s.requests|
  {
    s.(requests := s.requests[r := s.requests[r].(phase := p)])
  }

  predicate IsInside(s: State, r: nat) {
    r < |s.requests| && s.requests[r].phase.Inside?
  }

  /** One step; the check and the entry in the local map are one step, without an `await`. */
  function Apply(c: Config, s: State, e: Event): State {
    match e
    case Tick(d) => s.(now := s.now + d)
    case Arrive(k) => s.(requests := s.requests + [Request(k, AskingRedis(0))])
    case AskRedis(r) =>
      if r < |s.requests| && s.requests[r].phase.AskingRedis? then
        var k, a := s.requests[r].key, s.requests[r].phase.attempt;
        if a < c.retryCount && k !in s.redis then MoveTo(s.(redis := s.redis + {k}), r, Polling(s.now))
        else MoveTo(s, r, if a + 1 < c.retryCount then AskingRedis(a + 1) else TurnedAway)
      else s
    case LoseRedisKey(k) => s.(redis := s.redis - {k})
    case Poll(r) =>
      if r < |s.requests| && s.requests[r].phase.Polling? then
        var k := s.requests[r].key;
        if s.now - s.requests[r].phase.start >= c.timeout then MoveTo(s, r, LeavingRedis)
        else if k !in s.locks then MoveTo(s.(locks := s.locks + {k}), r, Inside)
        else s
      else s
    case Finish(r) =>
      if IsInside(s, r) then MoveTo(s.(locks := s.locks - {s.requests[r].key}), r, LeavingRedis) else s
    case LeaveRedis(r) =>
      if r < |s.requests| && s.requests[r].phase.LeavingRedis?
      then MoveTo(s.(redis := s.redis - {s.requests[r].key}), r, Done) else s
  }

  function After(c: Config, es: seq<Event>): State {
    if es == [] then Start() else Apply(c, After(c, es[..|es| - 1]), es[|es| - 1])
  }

  ghost predicate SomebodyInside(s: State, key: string) {
    exists r: nat :: IsInside(s, r) && s.requests[r].key == key
  }

  /** At most one request per key between the local acquire and the local release. */
  ghost predicate Exclusive(s: State) {
    forall q: nat, r: nat :: IsInside(s, q) && IsInside(s, r) && q != r ==> s.requests[q].key != s.requests[r].key
  }

  ghost predicate MapTellsTheTruth(s: State) {
    forall k :: k in s.locks <==> SomebodyInside(s, k)
  }

  /** A step that changes nobody's being inside. */
  lemma QuietStep(s: State, s': State)
    requires Exclusive(s) && MapTellsTheTruth(s) && s'.locks == s.locks
    requires |s.requests| <= |s'.requests|
    requires forall r: nat :: IsInside(s', r) <==> IsInside(s, r)
    requires forall r: nat :: IsInside(s, r) ==> s'.requests[r].key == s.requests[r].key
    ensures Exclusive(s') && MapTellsTheTruth(s')
  {
    forall k
      ensures SomebodyInside(s', k) <==> SomebodyInside(s, k)
    {
      if SomebodyInside(s, k) {
        var r: nat :| IsInside(s, r) && s.requests[r].key == k;
        assert IsInside(s', r);
      }
    }
  }

  lemma EnterStep(s: State, r: nat)
    requires Exclusive(s) && MapTellsTheTruth(s)
    requires r < |s.requests| && s.requests[r].phase.Polling? && s.requests[r].key !in s.locks
    ensures var s' := MoveTo(s.(locks := s.locks + {s.requests[r].key}), r, Inside);
            Exclusive(s') && MapTellsTheTruth(s')
  {
    var key := s.requests[r].key;
    var s' := MoveTo(s.(locks := s.locks + {key}), r, Inside);
    assert !SomebodyInside(s, key);
    forall q: nat | q != r
      ensures IsInside(s', q) <==> IsInside(s, q)
      ensures IsInside(s, q) ==> s.requests[q].key != key
    {
    }
    assert IsInside(s', r);
    forall k
      ensures k in s'.locks <==> SomebodyInside(s', k)
    {
      if SomebodyInside(s, k) {
        var q: nat :| IsInside(s, q) && s.requests[q].key == k;
        assert IsInside(s', q) && s'.requests[q].key == k;
      }
    }
  }

  lemma LeaveStep(s: State, r: nat)
    requires Exclusive(s) && MapTellsTheTruth(s) && IsInside(s, r)
    ensures var s' := MoveTo(s.(locks := s.locks - {s.requests[r].key}), r, LeavingRedis);
            Exclusive(s') && MapTellsTheTruth(s')
  {
    var key := s.requests[r].key;
    var s' := MoveTo(s.(locks := s.locks - {key}), r, LeavingRedis);
    forall q: nat
      ensures IsInside(s', q) <==> IsInside(s, q) && q != r
    {
    }
    forall k
      ensures k in s'.locks <==> SomebodyInside(s', k)
    {
      if k in s'.locks {
        var q: nat :| IsInside(s, q) && s.requests[q].key == k;
        assert IsInside(s', q) && s'.requests[q].key == k;
      }
    }
  }

  lemma LockStep(c: Config, s: State, e: Event)
    requires Exclusive(s) && MapTellsTheTruth(s)
    ensures Exclusive(Apply(c, s, e)) && MapTellsTheTruth(Apply(c, s, e))
  {
    var s' := Apply(c, s, e);
    if e.Finish? && IsInside(s, e.request) {
      LeaveStep(s, e.request);
    } else if e.Poll? && s'.locks != s.locks {
      EnterStep(s, e.request);
    } else {
      forall r: nat
        ensures IsInside(s', r) <==> IsInside(s, r)
      {
      }
      QuietStep(s, s');
    }
  }

  /**
   In every run of one process, whatever happens to the Redis keys: at most one request per
   key is inside, and the map holds a key exactly while some request of that key is inside.
   */
  lemma {:induction false} TwoLayerExclusion(c: Config, es: seq<Event>)
    ensures Exclusive(After(c, es))
    ensures MapTellsTheTruth(After(c, es))
  {
    if es == [] {
      assert forall k :: !SomebodyInside(Start(), k);
    } else {
      TwoLayerExclusion(c, es[..|es| - 1]);
      LockStep(c, After(c, es[..|es| - 1]), es[|es| - 1]);
    }
  }

  lemma AfterAppend(c: Config, es: seq<Event>, e: Event)
    ensures After(c, es + [e]) == Apply(c, After(c, es), e)
  {
    assert (es + [e])[..|es|] == es;
  }

  /** Both past the Redis layer at once: it takes one lost key. */
  function PastRedis(): seq<Event> {
    [Arrive("k"), Arrive("k"), AskRedis(0), LoseRedisKey("k"), AskRedis(1)]
  }

  function Two(redis: set<string>, p: Phase, q: Phase): State {
    State(0, redis, {}, [Request("k", p), Request("k", q)])
  }

  /** The states on the way. */
  function Stage(k: nat): State {
    if k == 0 then Start()
    else if k == 1 then State(0, {}, {}, [Request("k", AskingRedis(0))])
    else if k == 2 then Two({}, AskingRedis(0), AskingRedis(0))
    else if k == 3 then Two({"k"}, Polling(0), AskingRedis(0))
    else if k == 4 then Two({}, Polling(0), AskingRedis(0))
    else Two({"k"}, Polling(0), Polling(0))
  }

  lemma StageStep(c: Config, k: nat)
    requires c.retryCount > 0 && k < 5
    ensures Apply(c, Stage(k), PastRedis()[k]) == Stage(k + 1)
  {
    if k == 2 {
      assert {} + {"k"} == {"k"};
    }
  }

  lemma {:induction false} PastRedisStates(c: Config, k: nat)
    requires c.retryCount > 0 && k <= 5
    ensures After(c, PastRedis()[..k]) == Stage(k)
  {
    if k > 0 {
      var es := PastRedis();
      PastRedisStates(c, k - 1);
      AfterAppend(c, es[..k - 1], es[k - 1]);
      assert es[..k] == es[..k - 1] + [es[k - 1]];
      StageStep(c, k - 1);
    }
  }

  /** The Redis layer by itself does not exclude: two requests of one key can both hold it. */
  lemma RedisLayerAloneAdmitsTwo(c: Config)
    requires c.retryCount > 0
    ensures exists es, q: nat, r: nat ::
              var s := After(c, es);
              q < r < |s.requests| && s.requests[q].phase.Polling? && s.requests[r].phase.Polling?
              && s.requests[q].key == s.requests[r].key
  {
    PastRedisStates(c, 5);
    var es := PastRedis();
    assert es[..5] == es;
    var s := After(c, es);
    assert s.requests[0].phase.Polling? && s.requests[1].phase.Polling?;
  }

  // ----- one request of the machine on its own

  /** A free key: in, and out again with both entries removed. */
  lemma FreeRequestPasses(c: Config, s: State, r: nat)
    requires c.retryCount > 0 && c.timeout > 0 && r < |s.requests| && s.requests[r].phase == AskingRedis(0)
    requires s.requests[r].key !in s.redis && s.requests[r].key !in s.locks
    ensures var key := s.requests[r].key;
            var inside := Apply(c, Apply(c, s, AskRedis(r)), Poll(r));
            var out := Apply(c, Apply(c, inside, Finish(r)), LeaveRedis(r));
            && IsInside(inside, r) && inside.redis == s.redis + {key} && inside.locks == s.locks + {key}
            && out.requests[r].phase.Done? && out.redis == s.redis && out.locks == s.locks
  {
    var key := s.requests[r].key;
    assert s.redis + {key} - {key} == s.redis && s.locks + {key} - {key} == s.locks;
  }

  /** `n` questions to Redis in a row. */
  function Asked(c: Config, s: State, r: nat, n: nat): State {
    if n == 0 then s else Apply(c, Asked(c, s, r, n - 1), AskRedis(r))
  }

  /** A key that stays taken in Redis: turned away after exactly `retryCount` questions, with nothing changed. */
  lemma {:induction false} TakenKeyTurnsAway(c: Config, s: State, r: nat, n: nat)
    requires r < |s.requests| && s.requests[r].phase == AskingRedis(0) && s.requests[r].key in s.redis
    requires 0 < n <= c.retryCount
    ensures var s' := Asked(c, s, r, n);
            && |s'.requests| == |s.requests| && s'.requests[r].key == s.requests[r].key
            && s'.requests[r].phase == (if n < c.retryCount then AskingRedis(n) else TurnedAway)
            && s'.redis == s.redis && s'.locks == s.locks
  {
    if n > 1 {
      TakenKeyTurnsAway(c, s, r, n - 1);
    }
  }

  /** A key taken in the local map: polled in time, given up and released in Redis when the time is over. */
  lemma HeldKeyTimesOut(c: Config, s: State, r: nat)
    requires r < |s.requests| && s.requests[r].phase.Polling? && s.requests[r].key in s.locks
    ensures var polled := Apply(c, s, Poll(r));
            if s.now - s.requests[r].phase.start < c.timeout then polled == s
            else
              var out := Apply(c, polled, LeaveRedis(r));
              && out.requests[r].phase.Done? && out.locks == s.locks && out.redis == s.redis - {s.requests[r].key}
  {
  }
}
