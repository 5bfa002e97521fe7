/**
 The in-memory branches of the Redis service: one map from keys to a value with an expiry
 time, updated in place. A key is a constructor here where the source formats a string.
 */
module RedisStore {
  import opened Common
  import opened SortedSets

  datatype Key =
    | Stock(couponType: string)
    | Queue(couponType: string)
    | Issued(couponType: string)
    | Rank(couponType: string)
    | EndTime(couponType: string)
    | Daily(date: int)     // days since 1970, in UTC
    | Overall
    | Lock(name: string)

  /** What a cell's string spells: a number, a list of members with scores, or a plain word. */
  datatype Stored = Number(n: int) | Members(entries: Entries) | Word(text: string)

  datatype Cell = Cell(value: Stored, expiresAt: int)

  type Store = map<Key, Cell>

  /** Expiry given to counters and sorted sets (30 seconds), and to a plain `set` (5 seconds). */
  const CELL_TTL := 30000
  const SET_TTL := 5000

  predicate HoldsMembers(store: Store, key: Key) {
    key in store ==> store[key].value.Members?
  }

  predicate HoldsNumber(store: Store, key: Key) {
    key in store ==> store[key].value.Number?
  }

  /** The sorted set at a key, empty when the key is absent. */
  function EntriesAt(store: Store, key: Key): Entries {
    if key in store && store[key].value.Members? then store[key].value.entries else []
  }

  /** The counter at a key, 0 when the key is absent. */
  function NumberAt(store: Store, key: Key): int {
    if key in store && store[key].value.Number? then store[key].value.n else 0
  }

  /** A rewrite of the list in place: a new cell gets a fresh expiry, an old one keeps its own. */
  function WithEntries(store: Store, key: Key, es: Entries, now: int): Store {
    store[key := Cell(Members(es), if key in store then store[key].expiresAt else now + CELL_TTL)]
  }

  function WithNumber(store: Store, key: Key, n: int, now: int): Store {
    store[key := Cell(Number(n), now + CELL_TTL)]
  }

  /** The number a reader sees: none when the cell is absent or past its expiry. */
  function NumberSeen(store: Store, key: Key, now: int): Option<int> {
    if key in store && store[key].value.Number? && now <= store[key].expiresAt
    then Some(store[key].value.n) else None
  }

  ghost predicate WellFormed(store: Store) {
    forall k :: k in store && store[k].value.Members? ==> Unique(store[k].value.entries)
  }

  /** Each kind of key holds the kind of value that its users write to it. */
  ghost predicate Typed(store: Store) {
    && WellFormed(store)
    && forall k :: k in store ==>
         match k
         case Stock(_) => store[k].value.Number?
         case EndTime(_) => store[k].value.Number?
         case Lock(_) => store[k].value.Word?
         case Queue(_) => store[k].value.Members?
         case Issued(_) => store[k].value.Members?
         case Rank(_) => store[k].value.Members?
         case Daily(_) => store[k].value.Members?
         case Overall => store[k].value.Members?
  }

  /** `zscore` answers null for an absent member, and also for a score of 0. */
  ghost function ScoreSeen(es: Entries, member: int): Option<int> {
    if Has(es, member) && ScoreOr0(es, member) != 0 then Some(ScoreOr0(es, member)) else None
  }

  /** One bound of `Array.slice` on a list of length `n`: negative counts from the end. */
  function SliceBound(n: nat, i: int): (b: nat)
    ensures b <= n
  {
    if i < 0 then Max(n + i, 0) else Min(i, n)
  }

  function Slice(es: Entries, start: int, end: int): Entries {
    var a := SliceBound(|es|, start);
    var b := SliceBound(|es|, end);
    if a < b then es[a..b] else []
  }

  /** Stop -1 means "to the end"; other stops are inclusive. */
  function RangeOf(es: Entries, start: int, stop: int): Entries {
    var sorted := SortByScore(es);
    Slice(sorted, start, (if stop == -1 then |sorted| - 1 else stop) + 1)
  }

  /** A counter that was just written reads back for 30 seconds, the last millisecond included. */
  lemma CounterReadsBack(store: Store, key: Key, n: int, now: int, at: int)
    ensures NumberSeen(WithNumber(store, key, n, now), key, at) == if at <= now + 30000 then Some(n) else None
    ensures forall k :: k != key ==> NumberSeen(WithNumber(store, key, n, now), k, at) == NumberSeen(store, k, at)
  {
  }

  /** A new sorted set lives for 30 seconds; writing to a present one does not prolong it. */
  lemma SetExpiry(store: Store, key: Key, es: Entries, now: int)
    ensures WithEntries(store, key, es, now)
            == store[key := Cell(Members(es), if key in store then store[key].expiresAt else now + 30000)]
  {
  }

  /** A score is seen exactly when the member is there with a score other than 0. */
  lemma ScoreSeenExactly(es: Entries, member: int, score: int)
    requires Unique(es)
    ensures ScoreSeen(es, member) == Some(score) <==> Entry(member, score) in es && score != 0
    ensures ScoreSeen(es, member) == None <==> forall i :: 0 <= i < |es| && es[i].member == member ==> es[i].score == 0
  {
    if i :| 0 <= i < |es| && es[i].member == member {
      IndexOfAt(es, i);
    }
  }

  /**
   A range in terms of positions: it starts at `start`, counted from the end when negative, and
   takes everything up to `stop`, the last one included, counted from the end when negative.
   */
  lemma RangeExactly(es: Entries, start: int, stop: int, sorted: Entries, range: Entries)
    requires sorted == SortByScore(es) && range == RangeOf(es, start, stop)
    ensures var n := |sorted|;
            var first := Max(0, if start < 0 then n + start else start);
            var last := if stop < 0 then n + stop else stop;
            && |range| == Max(0, Min(n - 1, last) - first + 1)
            && forall k :: 0 <= k < |range| ==> range[k] == sorted[first + k]
  {
    var end := (if stop == -1 then |sorted| - 1 else stop) + 1;
    assert range == Slice(sorted, start, end);
    SliceExactly(sorted, start, end);
  }

  lemma SliceExactly(es: Entries, start: int, end: int)
    ensures var n := |es|;
            var first := Max(0, if start < 0 then n + start else start);
            var past := Max(0, if end < 0 then n + end else end);
            && |Slice(es, start, end)| == Max(0, Min(n, past) - first)
            && forall k :: 0 <= k < |Slice(es, start, end)| ==> Slice(es, start, end)[k] == es[first + k]
  {
  }

  lemma FullRange(es: Entries)
    ensures RangeOf(es, 0, -1) == SortByScore(es)
  {
  }

  /** The reply without scores. */
  function MembersOf(es: Entries): seq<int> {
    seq(|es|, (i: nat) requires i < |es| => es[i].member)
  }

  /** The flat reply [member, score, member, score, ...]. */
  function Flatten(es: Entries): seq<int> {
    if es == [] then []
    else Flatten(es[..|es| - 1]) + [es[|es| - 1].member, es[|es| - 1].score]
  }

  lemma {:induction false} FlattenAt(es: Entries, i: nat)
    requires i < |es|
    ensures |Flatten(es)| == 2 * |es|
    ensures Flatten(es)[2 * i] == es[i].member
    ensures Flatten(es)[2 * i + 1] == es[i].score
  {
    var n := |es| - 1;
    if n > 0 {
      FlattenAt(es[..n], if i < n then i else 0);
    }
  }

  lemma FlattenLength(es: Entries)
    ensures |Flatten(es)| == 2 * |es|
  {
    if es != [] {
      FlattenAt(es, 0);
    }
  }

  method Position(es: Entries, member: int) returns (i: nat)
    requires Unique(es)
    ensures i == IndexOf(es, member)
  {
    i := 0;
    while i < |es| && es[i].member != member
      invariant 0 <= i <= |es|
      invariant forall j :: 0 <= j < i ==> es[j].member != member
    {
      i := i + 1;
    }
    if i < |es| {
      IndexOfAt(es, i);
    }
  }

  lemma OneMoreCounted(named: set<Key>, key: Key, present: set<Key>)
    ensures |(named + {key}) * present| == |named * present| + if key in present && key !in named then 1 else 0
  {
    if key in present && key !in named {
      assert (named + {key}) * present == named * present + {key};
    } else {
      assert (named + {key}) * present == named * present;
    }
  }

  lemma OneMoreNamed(keys: seq<Key>, i: nat)
    requires i < |keys|
    ensures Elements(keys[..i + 1]) == Elements(keys[..i]) + {keys[i]}
  {
    assert keys[..i + 1] == keys[..i] + [keys[i]];
  }

  lemma OneMoreRemoved(store: Store, named: set<Key>, key: Key)
    ensures store - (named + {key}) == (store - named) - {key}
  {
  }

  lemma RemovingKeepsForm(store: Store, keys: set<Key>)
    requires WellFormed(store)
    ensures WellFormed(store - keys)
  {
    forall k | k in store - keys && (store - keys)[k].value.Members?
      ensures Unique((store - keys)[k].value.entries)
    {
      assert k in store && store[k].value.Members?;
    }
  }

  /** Deleting one more key from what the keys before it left. */
  lemma OneMoreGone(store: Store, keys: seq<Key>, i: nat, named: set<Key>, left: Store)
    requires WellFormed(store) && i < |keys| && named == Elements(keys[..i]) && left == store - named
    ensures store - Elements(keys[..i + 1]) == left - {keys[i]}
    ensures WellFormed(left - {keys[i]})
    ensures |Elements(keys[..i + 1]) * store.Keys| == |named * store.Keys| + if keys[i] in left then 1 else 0
  {
    OneMoreNamed(keys, i);
    OneMoreCounted(named, keys[i], store.Keys);
    OneMoreRemoved(store, named, keys[i]);
    RemovingKeepsForm(store, named + {keys[i]});
  }

  class RedisService {
    var testLocks: Store

    ghost predicate Valid()
      reads this
    {
      WellFormed(testLocks)
    }

    constructor ()
      ensures Valid() && testLocks == map[]
    {
      testLocks := map[];
    }

    /** `SET key value [PX ttl] [NX]`; NX looks at presence only, not at the expiry. */
    method Set(key: Key, value: Stored, ttl: Option<int>, nx: bool, now: int) returns (ok: bool)
      requires Valid() && !value.Members?
      modifies this
      ensures Valid()
      ensures ok <==> !(nx && key in old(testLocks))
      ensures testLocks == if ok then old(testLocks)[key := Cell(value, now + if ttl.Some? then ttl.value else 5000)]
                           else old(testLocks)
    {
      if nx && key in testLocks {
        return false;
      }
      testLocks := testLocks[key := Cell(value, now + if ttl.Some? then ttl.value else SET_TTL)];
      return true;
    }

    /** Removes the keys and counts those that were there; a key named twice counts once. */
    method Del(keys: seq<Key>) returns (deleted: nat)
      requires Valid()
      modifies this
      ensures Valid()
      ensures deleted == |Elements(keys) * old(testLocks).Keys|
      ensures testLocks == old(testLocks) - Elements(keys)
    {
      ghost var before := testLocks;
      deleted := 0;
      for i := 0 to |keys|
        invariant Valid()
        invariant deleted == |Elements(keys[..i]) * before.Keys|
        invariant testLocks == before - Elements(keys[..i])
      {
        OneMoreGone(before, keys, i, Elements(keys[..i]), testLocks);
        if keys[i] in testLocks {
          deleted := deleted + 1;
        }
        testLocks := testLocks - {keys[i]};
      }
      assert keys[..|keys|] == keys;
    }

    /** Moves the expiry of a key that exists. */
    method Expire(key: Key, seconds: int, now: int) returns (ok: bool)
      requires Valid()
      modifies this
      ensures Valid()
      ensures ok <==> key in old(testLocks)
      ensures testLocks == if ok then old(testLocks)[key := old(testLocks)[key].(expiresAt := now + seconds * 1000)]
                           else old(testLocks)
    {
      if key !in testLocks {
        return false;
      }
      testLocks := testLocks[key := testLocks[key].(expiresAt := now + seconds * 1000)];
      return true;
    }

    method Decr(key: Key, now: int) returns (n: int)
      requires Valid() && HoldsNumber(testLocks, key)
      modifies this
      ensures Valid()
      ensures n == NumberAt(old(testLocks), key) - 1
      ensures testLocks == WithNumber(old(testLocks), key, n, now)
    {
      n := (if key in testLocks then testLocks[key].value.n else 0) - 1;
      testLocks := testLocks[key := Cell(Number(n), now + CELL_TTL)];
    }

    method Incr(key: Key, now: int) returns (n: int)
      requires Valid() && HoldsNumber(testLocks, key)
      modifies this
      ensures Valid()
      ensures n == NumberAt(old(testLocks), key) + 1
      ensures testLocks == WithNumber(old(testLocks), key, n, now)
    {
      n := (if key in testLocks then testLocks[key].value.n else 0) + 1;
      testLocks := testLocks[key := Cell(Number(n), now + CELL_TTL)];
    }

    method GetNumber(key: Key, now: int) returns (r: Option<int>)
      requires HoldsNumber(testLocks, key)
      ensures r == NumberSeen(testLocks, key, now)
    {
      if key !in testLocks || now > testLocks[key].expiresAt {
        return None;
      }
      return Some(testLocks[key].value.n);
    }

    method Zadd(key: Key, score: int, member: int, now: int) returns (added: int)
      requires Valid() && HoldsMembers(testLocks, key)
      modifies this
      ensures Valid() && added == 1
      ensures testLocks == WithEntries(old(testLocks), key, Put(EntriesAt(old(testLocks), key), member, score), now)
    {
      if key !in testLocks {
        var none := EntriesAt(testLocks, key);
        assert none == [] && !Has(none, member);
        assert Put(none, member, score) == [Entry(member, score)];
        testLocks := testLocks[key := Cell(Members([Entry(member, score)]), now + CELL_TTL)];
        return 1;
      }
      var entries := testLocks[key].value.entries;
      PutMeaning(entries, member, score);
      var i := Position(entries, member);
      if i < |entries| {
        entries := entries[i := Entry(member, score)];
      } else {
        entries := entries + [Entry(member, score)];
      }
      testLocks := testLocks[key := testLocks[key].(value := Members(entries))];
      return 1;
    }

    method Zrem(key: Key, member: int) returns (removed: int)
      requires Valid() && HoldsMembers(testLocks, key)
      modifies this
      ensures Valid()
      ensures removed == if Has(EntriesAt(old(testLocks), key), member) then 1 else 0
      ensures testLocks == if key in old(testLocks)
                           then WithEntries(old(testLocks), key, Delete(EntriesAt(old(testLocks), key), member), 0)
                           else old(testLocks)
    {
      if key !in testLocks {
        assert !Has([], member);
        return 0;
      }
      var entries := testLocks[key].value.entries;
      DeleteMeaning(entries, member);
      var i := Position(entries, member);
      removed := if i < |entries| then 1 else 0;
      if i < |entries| {
        assert Has(entries, member);
        entries := entries[..i] + entries[i + 1..];
      }
      testLocks := testLocks[key := testLocks[key].(value := Members(entries))];
    }

    method Zscore(key: Key, member: int) returns (r: Option<int>)
      requires Valid() && HoldsMembers(testLocks, key)
      ensures r == ScoreSeen(EntriesAt(testLocks, key), member)
    {
      if key !in testLocks {
        return None;
      }
      var entries := testLocks[key].value.entries;
      var i := Position(entries, member);
      if i == |entries| || entries[i].score == 0 {
        return None;
      }
      return Some(entries[i].score);
    }

    /** The rank is the position in the full range. */
    method Zrank(key: Key, member: int) returns (r: Option<nat>)
      requires Valid() && HoldsMembers(testLocks, key)
      ensures var es := EntriesAt(testLocks, key);
              var range := RangeOf(es, 0, -1);
              if Has(es, member)
              then r.Some? && r.value < |range| && range[r.value].member == member && r.value == IndexOf(range, member)
              else r.None?
    {
      if key !in testLocks {
        return None;
      }
      var entries := testLocks[key].value.entries;
      var i := Position(entries, member);
      if i == |entries| {
        return None;
      }
      var sorted := SortByScore(entries);
      SortCorrect(entries);
      SortContents(entries);
      assert entries[i] in sorted;
      var index := Position(sorted, member);
      assert Has(sorted, member);
      IndexOfAt(sorted, index);
      return Some(index);
    }

    method Zrange(key: Key, start: int, stop: int, withScores: bool) returns (flat: seq<int>)
      requires Valid() && HoldsMembers(testLocks, key)
      ensures var range := RangeOf(EntriesAt(testLocks, key), start, stop);
              flat == if withScores then Flatten(range) else MembersOf(range)
    {
      if key !in testLocks {
        return [];
      }
      var sorted := SortByScore(testLocks[key].value.entries);
      var actualStop := if stop == -1 then |sorted| - 1 else stop;
      var sliced := Slice(sorted, start, actualStop + 1);
      if !withScores {
        return MembersOf(sliced);
      }
      flat := [];
      for i := 0 to |sliced|
        invariant flat == Flatten(sliced[..i])
      {
        assert sliced[..i + 1][..i] == sliced[..i];
        flat := flat + [sliced[i].member, sliced[i].score];
      }
      assert sliced[..|sliced|] == sliced;
    }

    method Zcard(key: Key) returns (n: nat)
      requires HoldsMembers(testLocks, key)
      ensures n == |RangeOf(EntriesAt(testLocks, key), 0, -1)|
    {
      if key !in testLocks {
        return 0;
      }
      SortContents(testLocks[key].value.entries);
      return |testLocks[key].value.entries|;
    }
  }
}
