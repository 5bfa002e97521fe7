/**
 The coupon service run one request at a time, as the Kafka consumer runs the messages of one
 coupon type: `issueCoupon` step by step over the in-memory Redis, and the ranking read-out.
 */
module CouponService {
  import opened Common
  import opened SortedSets
  import opened RedisStore
  import opened Entities

  /** Rate, amount and validity in days of each coupon type the service knows. */
  datatype CouponConfig = CouponConfig(discountRate: int, discountAmount: int, expiryDays: int)

  const DAY := 24 * 60 * 60 * 1000

  function ConfigOf(couponType: string): Option<CouponConfig> {
    if couponType == "DISCOUNT_10PERCENT" then Some(CouponConfig(10, 0, 30))
    else if couponType == "DISCOUNT_20PERCENT" then Some(CouponConfig(20, 0, 30))
    else if couponType == "DISCOUNT_30PERCENT" then Some(CouponConfig(30, 0, 30))
    else if couponType == "FIXED_1000" then Some(CouponConfig(0, 1000, 30))
    else if couponType == "FIXED_2000" then Some(CouponConfig(0, 2000, 30))
    else if couponType == "LIMITED_OFFER" then Some(CouponConfig(15, 0, 7))
    else None
  }

  /** The three readings of the clock in one request: at the check, in the queue, at the issue. */
  datatype Clock = Clock(check: int, queued: int, issued: int)

  /** The clock runs after 1970: no reading is 0. */
  predicate Running(clk: Clock) {
    clk.check > 0 && clk.queued > 0 && clk.issued > 0
  }

  datatype Outcome = Issued(rank: nat) | NotAvailable | Exhausted | UnknownType

  datatype RankRow = RankRow(userId: int, rank: nat, issuedAt: int)

  // ----- specification of one request

  /** What one coupon type owns in Redis and in the coupon table. */
  datatype Issuance = Issuance(
    stock: int,
    end: Option<Cell>,
    queue: Entries,
    issued: Entries,
    ranks: Entries,
    holders: seq<int>)

  predicate Late(end: Option<Cell>, now: int) {
    end.Some? && end.value.value.Number? && now <= end.value.expiresAt && now > end.value.value.n
  }

  /** Late means after the stored end time, as long as that time is kept. */
  lemma LateExactly(n: int, keptUntil: int, now: int)
    ensures Late(Some(Cell(Number(n), keptUntil)), now) <==> n < now <= keptUntil
    ensures !Late(None, now)
  {
  }

  /** A request is let through exactly when the user has no score in either set and it is not after the end time. */
  lemma AvailableExactly(v: Issuance, known: bool, user: int, clk: Clock, n: int, keptUntil: int)
    requires Unique(v.issued) && Unique(v.queue)
    requires v.end == Some(Cell(Number(n), keptUntil))
    ensures Issue(v, known, user, clk).1 != NotAvailable <==>
            && (forall i :: 0 <= i < |v.issued| && v.issued[i].member == user ==> v.issued[i].score == 0)
            && (forall i :: 0 <= i < |v.queue| && v.queue[i].member == user ==> v.queue[i].score == 0)
            && !(n < clk.check <= keptUntil)
  {
    ScoreSeenExactly(v.issued, user, 0);
    ScoreSeenExactly(v.queue, user, 0);
  }

  ghost function QueueRank(queue: Entries, user: int): nat {
    IndexOf(SortByScore(queue), user)
  }

  /** One request run to its end: the new state and what the caller sees. */
  ghost function Issue(v: Issuance, known: bool, user: int, clk: Clock): (Issuance, Outcome) {
    if ScoreSeen(v.issued, user).Some? || ScoreSeen(v.queue, user).Some? || Late(v.end, clk.check) then
      (v, NotAvailable)
    else
      var queue := Put(v.queue, user, clk.queued);
      var rank := QueueRank(queue, user);
      if v.stock - 1 < 0 then
        (v.(queue := Delete(queue, user)), Exhausted)
      else if !known then
        (v.(queue := queue, stock := v.stock - 1), UnknownType)
      else
        (v.(queue := Delete(queue, user), stock := v.stock - 1, holders := v.holders + [user],
            issued := Put(v.issued, user, clk.issued), ranks := Put(v.ranks, user, rank)),
         Outcome.Issued(rank))
  }

  function HoldersOf(coupons: seq<CouponRow>, couponType: string): seq<int> {
    if coupons == [] then []
    else
      var last := coupons[|coupons| - 1];
      HoldersOf(coupons[..|coupons| - 1], couponType)
      + if last.couponType == couponType then [last.userId] else []
  }

  lemma HoldersOfAppend(coupons: seq<CouponRow>, row: CouponRow, couponType: string)
    ensures HoldersOf(coupons + [row], couponType) ==
            HoldersOf(coupons, couponType) + if row.couponType == couponType then [row.userId] else []
  {
    assert (coupons + [row])[..|coupons|] == coupons;
  }

  function View(store: Store, coupons: seq<CouponRow>, t: string): Issuance {
    Issuance(
      NumberAt(store, Key.Stock(t)),
      if Key.EndTime(t) in store then Some(store[Key.EndTime(t)]) else None,
      EntriesAt(store, Key.Queue(t)),
      EntriesAt(store, Key.Issued(t)),
      EntriesAt(store, Key.Rank(t)),
      HoldersOf(coupons, t))
  }

  predicate OwnKey(k: Key, t: string) {
    k == Key.Stock(t) || k == Key.Queue(t) || k == Key.Issued(t) || k == Key.Rank(t)
  }

  /** Nothing but the stock, queue, issued and rank cells of one type differs. */
  ghost predicate OnlyTypeChanged(before: Store, after: Store, t: string) {
    forall k :: !OwnKey(k, t) ==> (k in after <==> k in before) && (k in before ==> after[k] == before[k])
  }

  /** When the ranking says a user got the coupon, 0 when the issued set has no score. */
  ghost function IssuedAt(v: Issuance, user: int): int {
    var seen := ScoreSeen(v.issued, user);
    if seen.Some? then seen.value else 0
  }

  /** The rows of the ranking: positions in the rank set's order, counted from 1. */
  ghost function RankRows(v: Issuance, limit: int): seq<RankRow> {
    var range := RangeOf(v.ranks, 0, limit - 1);
    seq(|range|, (i: nat) requires i < |range| => RankRow(range[i].member, i + 1, IssuedAt(v, range[i].member)))
  }

  /** In the ranks of a queue, who joined earlier stands before who joined later, ties by entry. */
  lemma QueueRankExactly(queue: Entries, a: int, b: int)
    requires Unique(queue) && Has(queue, a) && Has(queue, b) && a != b
    ensures QueueRank(queue, a) < |queue|
    ensures QueueRank(queue, a) < QueueRank(queue, b) <==>
            ScoreOr0(queue, a) < ScoreOr0(queue, b)
            || (ScoreOr0(queue, a) == ScoreOr0(queue, b) && IndexOf(queue, a) < IndexOf(queue, b))
  {
    var sorted := SortByScore(queue);
    SortCorrect(queue);
    SortContents(queue);
    StandsSorted(queue, a);
    StandsSorted(queue, b);
    var i, j := IndexOf(sorted, a), IndexOf(sorted, b);
    assert i < j ==> Precedes(queue, sorted[i], sorted[j]);
    assert j < i ==> Precedes(queue, sorted[j], sorted[i]);
  }

  lemma StandsSorted(queue: Entries, a: int)
    requires Unique(queue) && Has(queue, a)
    ensures var sorted := SortByScore(queue);
            IndexOf(sorted, a) < |queue| == |sorted|
            && sorted[IndexOf(sorted, a)] == Entry(a, ScoreOr0(queue, a))
  {
    var sorted := SortByScore(queue);
    SortContents(queue);
    SortCorrect(queue);
    var e := queue[IndexOf(queue, a)];
    assert e in sorted;
    var k :| 0 <= k < |sorted| && sorted[k] == e;
    IndexOfAt(sorted, k);
  }

  lemma RankRowAt(v: Issuance, limit: int, i: nat)
    requires i < |RangeOf(v.ranks, 0, limit - 1)|
    ensures var rows, member := RankRows(v, limit), RangeOf(v.ranks, 0, limit - 1)[i].member;
            && |rows| == |RangeOf(v.ranks, 0, limit - 1)|
            && rows[..i + 1] == rows[..i] + [RankRow(member, i + 1, IssuedAt(v, member))]
  {
  }

  /** The pair at position `i` of the flat list makes the next row. */
  lemma FlatRow(v: Issuance, limit: int, flat: seq<int>, expected: seq<RankRow>, i: nat)
    requires flat == Flatten(RangeOf(v.ranks, 0, limit - 1)) && expected == RankRows(v, limit)
    requires i < |flat| && i % 2 == 0 && |flat| == 2 * |expected|
    ensures i + 2 <= |flat|
    ensures expected[..(i + 2) / 2] == expected[..i / 2] + [RankRow(flat[i], i / 2 + 1, IssuedAt(v, flat[i]))]
  {
    FlattenAt(RangeOf(v.ranks, 0, limit - 1), i / 2);
    RankRowAt(v, limit, i / 2);
  }

  // ----- how single cell writes show in the view of a type

  lemma StockWrite(store: Store, coupons: seq<CouponRow>, t: string, n: int, now: int)
    requires Typed(store)
    ensures var store' := WithNumber(store, Key.Stock(t), n, now);
            && Typed(store')
            && OnlyTypeChanged(store, store', t)
            && View(store', coupons, t) == View(store, coupons, t).(stock := n)
  {
  }

  lemma QueueWrite(store: Store, coupons: seq<CouponRow>, t: string, es: Entries, now: int)
    requires Typed(store) && Unique(es)
    ensures var store' := WithEntries(store, Key.Queue(t), es, now);
            && Typed(store')
            && OnlyTypeChanged(store, store', t)
            && View(store', coupons, t) == View(store, coupons, t).(queue := es)
  {
  }

  lemma IssuedWrite(store: Store, coupons: seq<CouponRow>, t: string, es: Entries, now: int)
    requires Typed(store) && Unique(es)
    ensures var store' := WithEntries(store, Key.Issued(t), es, now);
            && Typed(store')
            && OnlyTypeChanged(store, store', t)
            && View(store', coupons, t) == View(store, coupons, t).(issued := es)
  {
  }

  lemma RankWrite(store: Store, coupons: seq<CouponRow>, t: string, es: Entries, now: int)
    requires Typed(store) && Unique(es)
    ensures var store' := WithEntries(store, Key.Rank(t), es, now);
            && Typed(store')
            && OnlyTypeChanged(store, store', t)
            && View(store', coupons, t) == View(store, coupons, t).(ranks := es)
  {
  }

  lemma OtherTypeUntouched(before: Store, after: Store, coupons: seq<CouponRow>, t: string, other: string)
    requires OnlyTypeChanged(before, after, t) && other != t
    ensures View(after, coupons, other) == View(before, coupons, other)
  {
    assert !OwnKey(Key.Stock(other), t) && !OwnKey(Key.Queue(other), t);
    assert !OwnKey(Key.Issued(other), t) && !OwnKey(Key.Rank(other), t) && !OwnKey(Key.EndTime(other), t);
  }

  lemma RankIsPosition(queue: Entries, user: int, rank: nat)
    requires Unique(queue)
    requires var range := RangeOf(queue, 0, -1);
             rank < |range| && range[rank].member == user
    ensures rank == QueueRank(queue, user)
  {
    FullRange(queue);
    SortCorrect(queue);
    IndexOfAt(SortByScore(queue), rank);
  }

  lemma DeleteOfNothing(member: int)
    ensures Delete([], member) == []
  {
    assert !Has([], member);
  }

  /** The unused coupon of a known type, valid for the days its type says. */
  function NewCoupon(userId: int, couponType: string, now: int): CouponRow
    requires ConfigOf(couponType).Some?
  {
    var cfg := ConfigOf(couponType).value;
    CouponRow(userId, couponType, cfg.discountRate, cfg.discountAmount, now + cfg.expiryDays * DAY, false)
  }

  class CouponsService {
    const redis: RedisService
    var coupons: seq<CouponRow>

    constructor (redis: RedisService)
      ensures this.redis == redis && coupons == []
    {
      this.redis := redis;
      coupons := [];
    }

    ghost predicate Valid()
      reads this, redis
    {
      Typed(redis.testLocks)
    }

    ghost function State(t: string): Issuance
      reads this, redis
    {
      View(redis.testLocks, coupons, t)
    }

    method CheckCouponAvailability(userId: int, couponType: string, now: int) returns (r: bool)
      requires Valid()
      ensures r <==> var v := State(couponType);
                     !(ScoreSeen(v.issued, userId).Some? || ScoreSeen(v.queue, userId).Some? || Late(v.end, now))
    {
      var alreadyIssued := redis.Zscore(Key.Issued(couponType), userId);
      if alreadyIssued.Some? {
        return false;
      }
      var inQueue := redis.Zscore(Key.Queue(couponType), userId);
      if inQueue.Some? {
        return false;
      }
      var issueEndTime := redis.GetNumber(Key.EndTime(couponType), now);
      return !(issueEndTime.Some? && now > issueEndTime.value);
    }

    method RecordUserRank(userId: int, couponType: string, now: int) returns (rank: nat)
      requires Valid()
      modifies redis
      ensures Valid() && OnlyTypeChanged(old(redis.testLocks), redis.testLocks, couponType)
      ensures var v := old(State(couponType));
              State(couponType) == v.(queue := Put(v.queue, userId, now))
      ensures rank == QueueRank(State(couponType).queue, userId)
    {
      ghost var store, queue := redis.testLocks, Put(State(couponType).queue, userId, now);
      PutAdds(State(couponType).queue, userId, now);
      QueueWrite(store, coupons, couponType, queue, now);
      var added := redis.Zadd(Key.Queue(couponType), now, userId, now);
      var r := redis.Zrank(Key.Queue(couponType), userId);
      rank := r.value;
      RankIsPosition(queue, userId, rank);
    }

    method RemoveUserRank(userId: int, couponType: string)
      requires Valid()
      modifies redis
      ensures Valid() && OnlyTypeChanged(old(redis.testLocks), redis.testLocks, couponType)
      ensures var v := old(State(couponType));
              State(couponType) == v.(queue := Delete(v.queue, userId))
    {
      ghost var store, queue := redis.testLocks, State(couponType).queue;
      DeleteOfNothing(userId);
      DeleteMeaning(queue, userId);
      QueueWrite(store, coupons, couponType, Delete(queue, userId), 0);
      var removed := redis.Zrem(Key.Queue(couponType), userId);
    }

    method TakeStock(couponType: string, now: int) returns (remaining: int)
      requires Valid()
      modifies redis
      ensures Valid() && OnlyTypeChanged(old(redis.testLocks), redis.testLocks, couponType)
      ensures remaining == old(State(couponType)).stock - 1
      ensures State(couponType) == old(State(couponType)).(stock := remaining)
      ensures NumberSeen(redis.testLocks, Key.Stock(couponType), now + 30000) == Some(remaining)
    {
      StockWrite(redis.testLocks, coupons, couponType, State(couponType).stock - 1, now);
      remaining := redis.Decr(Key.Stock(couponType), now);
    }

    method ReturnStock(couponType: string, now: int)
      requires Valid()
      modifies redis
      ensures Valid() && OnlyTypeChanged(old(redis.testLocks), redis.testLocks, couponType)
      ensures var v := old(State(couponType));
              State(couponType) == v.(stock := v.stock + 1)
    {
      StockWrite(redis.testLocks, coupons, couponType, State(couponType).stock + 1, now);
      var n := redis.Incr(Key.Stock(couponType), now);
    }

    method CreateAndSaveCoupon(userId: int, couponType: string, now: int) returns (ok: bool)
      modifies this`coupons
      ensures ok <==> ConfigOf(couponType).Some?
      ensures coupons == if ok then old(coupons) + [NewCoupon(userId, couponType, now)] else old(coupons)
      ensures ok ==> HoldersOf(coupons, couponType) == HoldersOf(old(coupons), couponType) + [userId]
      ensures forall t :: t != couponType ==> HoldersOf(coupons, t) == HoldersOf(old(coupons), t)
    {
      ghost var before := coupons;
      var config := ConfigOf(couponType);
      if config.None? {
        return false;
      }
      coupons := coupons + [CouponRow(userId, couponType, config.value.discountRate, config.value.discountAmount,
                                      now + config.value.expiryDays * DAY, false)];
      forall t
        ensures HoldersOf(coupons, t) == HoldersOf(before, t) + if t == couponType then [userId] else []
      {
        HoldersOfAppend(before, coupons[|before|], t);
      }
      return true;
    }

    method FinalizeUserRank(userId: int, couponType: string, rank: nat, now: int)
      requires Valid()
      modifies redis
      ensures Valid() && OnlyTypeChanged(old(redis.testLocks), redis.testLocks, couponType)
      ensures var v := old(State(couponType));
              State(couponType) == v.(issued := Put(v.issued, userId, now), ranks := Put(v.ranks, userId, rank),
                                      queue := Delete(v.queue, userId))
    {
      ghost var v := State(couponType);
      PutAdds(v.issued, userId, now);
      IssuedWrite(redis.testLocks, coupons, couponType, Put(v.issued, userId, now), now);
      var a := redis.Zadd(Key.Issued(couponType), now, userId, now);
      PutAdds(v.ranks, userId, rank);
      RankWrite(redis.testLocks, coupons, couponType, Put(v.ranks, userId, rank), now);
      a := redis.Zadd(Key.Rank(couponType), rank, userId, now);
      RemoveUserRank(userId, couponType);
    }

    /** One request: the whole new state of its coupon type, and nothing else changes. */
    method IssueCoupon(userId: int, couponType: string, clk: Clock) returns (r: Outcome)
      requires Valid()
      modifies this`coupons, redis
      ensures Valid() && OnlyTypeChanged(old(redis.testLocks), redis.testLocks, couponType)
      ensures (State(couponType), r) == Issue(old(State(couponType)), ConfigOf(couponType).Some?, userId, clk)
      ensures r.Issued? ==>
                ConfigOf(couponType).Some? && coupons == old(coupons) + [NewCoupon(userId, couponType, clk.issued)]
      ensures !r.Issued? ==> coupons == old(coupons)
      ensures forall t :: t != couponType ==> HoldersOf(coupons, t) == HoldersOf(old(coupons), t)
    {
      var canIssue := CheckCouponAvailability(userId, couponType, clk.check);
      if !canIssue {
        return NotAvailable;
      }
      var rank := RecordUserRank(userId, couponType, clk.queued);
      var remaining := TakeStock(couponType, clk.queued);
      if remaining < 0 {
        RemoveUserRank(userId, couponType);
        ReturnStock(couponType, clk.queued);
        return Exhausted;
      }
      var saved := CreateAndSaveCoupon(userId, couponType, clk.issued);
      if !saved {
        return UnknownType;
      }
      FinalizeUserRank(userId, couponType, rank, clk.issued);
      return Outcome.Issued(rank);
    }

    /** One row: the user, its place, and the time in the issued set. */
    method RankingRow(couponType: string, userId: int, rank: nat) returns (row: RankRow)
      requires Valid()
      ensures row == RankRow(userId, rank, IssuedAt(State(couponType), userId))
    {
      var issuedAt := redis.Zscore(Key.Issued(couponType), userId);
      row := RankRow(userId, rank, if issuedAt.Some? then issuedAt.value else 0);
    }

    method GetCouponRanking(couponType: string, limit: int) returns (rows: seq<RankRow>)
      requires Valid()
      ensures rows == RankRows(State(couponType), limit)
    {
      ghost var v, expected := State(couponType), RankRows(State(couponType), limit);
      var rankings := redis.Zrange(Key.Rank(couponType), 0, limit - 1, true);
      FlattenLength(RangeOf(v.ranks, 0, limit - 1));
      rows := [];
      var i := 0;
      while i < |rankings|
        invariant 0 <= i <= |rankings| && i % 2 == 0
        invariant rows == expected[..i / 2]
      {
        FlatRow(v, limit, rankings, expected, i);
        var row := RankingRow(couponType, rankings[i], i / 2 + 1);
        rows := rows + [row];
        i := i + 2;
      }
    }
  }
}
