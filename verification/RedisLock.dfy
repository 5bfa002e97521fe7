/**
 The Redis lock: a bounded retry of `SET key locked PX ttl NX`, and a release that deletes
 the key without asking whose it is.
 */
module RedisLock {
  import opened Common
  import opened RedisStore

  datatype Acquisition = Got | NotGot | Threw

  /**
   What an attempt meets: the store as other processes left it, or a failed command.
   Between two attempts everything may have changed.
   */
  type World = Option<Store>

  predicate Free(w: World, name: string) {
    w.Some? && Lock(name) !in w.value
  }

  /** The store after `n` attempts that all met a held lock or a failed command. */
  function LeftBy(store: Store, worlds: seq<World>, n: nat): Store
    requires n <= |worlds|
  {
    if n == 0 then store
    else if worlds[n - 1].Some? then worlds[n - 1].value
    else LeftBy(store, worlds, n - 1)
  }

  /** Pauses among the first `n` attempts: after a held lock, except on the last attempt. */
  function Pauses(worlds: seq<World>, n: nat, retryCount: int): nat
    requires n <= |worlds|
  {
    if n == 0 then 0
    else Pauses(worlds, n - 1, retryCount) + if worlds[n - 1].Some? && n - 1 < retryCount - 1 then 1 else 0
  }

  /** The attempts that met a held lock. */
  function HeldAt(worlds: seq<World>, n: int): set<nat> {
    set i: nat | i < |worlds| && i < n && worlds[i].Some?
  }

  /** There is one pause for each of the first `n` attempts that met a held lock, the last of all excepted. */
  lemma {:induction false} PausesExactly(worlds: seq<World>, n: nat, retryCount: int)
    requires n <= |worlds|
    ensures Pauses(worlds, n, retryCount) == |HeldAt(worlds, Min(n, retryCount - 1))|
  {
    if n == 0 {
      assert HeldAt(worlds, Min(0, retryCount - 1)) == {};
    } else {
      PausesExactly(worlds, n - 1, retryCount);
      var before, now := HeldAt(worlds, Min(n - 1, retryCount - 1)), HeldAt(worlds, Min(n, retryCount - 1));
      if worlds[n - 1].Some? && n - 1 < retryCount - 1 {
        assert now == before + {n - 1};
      } else {
        assert now == before;
      }
    }
  }

  /** The store is untouched while no command goes through. */
  lemma {:induction false} LeftUntouched(store: Store, worlds: seq<World>, n: nat)
    requires n <= |worlds| && forall i :: 0 <= i < n ==> worlds[i].None?
    ensures LeftBy(store, worlds, n) == store
  {
    if n > 0 {
      LeftUntouched(store, worlds, n - 1);
    }
  }

  /** Otherwise it is what the last attempt whose command went through saw. */
  lemma {:induction false} LeftByExactly(store: Store, worlds: seq<World>, n: nat, i: nat)
    requires i < n <= |worlds| && worlds[i].Some? && forall j :: i < j < n ==> worlds[j].None?
    ensures LeftBy(store, worlds, n) == worlds[i].value
  {
    if i < n - 1 {
      LeftByExactly(store, worlds, n - 1, i);
    }
  }

  class RedisDistributedLockService {
    const redis: RedisService

    constructor (redis: RedisService)
      ensures this.redis == redis
    {
      this.redis := redis;
    }

    /**
     Succeeds exactly when one of the first `retryCount` attempts finds the key absent, and
     then writes it once, with that attempt's time plus the time to live.
     */
    method AcquireLock(name: string, ttl: int, retryCount: int, retryDelay: nat, worlds: seq<World>, clock: seq<int>)
      returns (r: Acquisition, attempts: nat, slept: nat)
      requires redis.Valid()
      requires |worlds| == |clock| >= retryCount
      requires forall w :: w in worlds && w.Some? ==> WellFormed(w.value)
      modifies redis
      ensures redis.Valid()
      ensures r.Got? <==> exists i :: 0 <= i < retryCount && Free(worlds[i], name)
      ensures r.Threw? <==> retryCount > 0 && !r.Got? && worlds[retryCount - 1].None?
      ensures attempts <= |worlds| && forall i :: 0 <= i < attempts - 1 ==> !Free(worlds[i], name)
      ensures r.Got? ==> 0 < attempts <= retryCount && Free(worlds[attempts - 1], name)
                         && redis.testLocks == worlds[attempts - 1].value[
                              Lock(name) := Cell(Word("locked"), clock[attempts - 1] + ttl)]
                         && slept == retryDelay * Pauses(worlds, attempts - 1, retryCount)
      ensures !r.Got? ==> attempts == Max(retryCount, 0)
                          && redis.testLocks == LeftBy(old(redis.testLocks), worlds, attempts)
                          && slept == retryDelay * Pauses(worlds, attempts, retryCount)
    {
      slept := 0;
      var i := 0;
      while i < retryCount
        invariant 0 <= i <= Max(retryCount, 0)
        invariant redis.Valid()
        invariant forall j :: 0 <= j < i ==> !Free(worlds[j], name)
        invariant redis.testLocks == LeftBy(old(redis.testLocks), worlds, i)
        invariant slept == retryDelay * Pauses(worlds, i, retryCount)
        invariant i == retryCount && i > 0 ==> worlds[i - 1].Some?
      {
        if worlds[i].None? {
          if i == retryCount - 1 {
            return Threw, i + 1, slept;
          }
        } else {
          redis.testLocks := worlds[i].value;
          var ok := redis.Set(Lock(name), Word("locked"), Some(ttl), true, clock[i]);
          if ok {
            return Got, i + 1, slept;
          }
          if i < retryCount - 1 {
            slept := slept + retryDelay;
          }
        }
        i := i + 1;
      }
      return NotGot, i, slept;
    }

    /** Deletes the key, whoever wrote it; a command that fails is swallowed and the key stays. */
    method ReleaseLock(name: string, fails: bool) returns (deleted: bool)
      requires redis.Valid()
      modifies redis
      ensures redis.Valid()
      ensures deleted <==> !fails && Lock(name) in old(redis.testLocks)
      ensures redis.testLocks == if fails then old(redis.testLocks) else old(redis.testLocks) - {Lock(name)}
    {
      if fails {
        return false;
      }
      var keys := [Lock(name)];
      assert Elements(keys) == {Lock(name)};
      var result := redis.Del(keys);
      var present := {Lock(name)} * old(redis.testLocks).Keys;
      assert present == if Lock(name) in old(redis.testLocks) then {Lock(name)} else {};
      return result == 1;
    }
  }
}
