/**
 Whole runs of the serial coupon service: which users end up with a coupon, what Redis holds
 between messages, and what the ranking shows.
 */
module CouponRuns {
  import opened Common
  import opened SortedSets
  import opened RedisStore
  import opened CouponService
  import opened Entities

  datatype Message = Message(userId: int, couponType: string, clk: Clock)

  /** The messages of one coupon type: that type's partition. */
  function OfType(ms: seq<Message>, t: string): seq<Message> {
    if ms == [] then []
    else OfType(ms[..|ms| - 1], t) + if ms[|ms| - 1].couponType == t then [ms[|ms| - 1]] else []
  }

  ghost function IssueAll(v: Issuance, known: bool, ms: seq<Message>): Issuance {
    if ms == [] then v
    else
      var m := ms[|ms| - 1];
      Issue(IssueAll(v, known, ms[..|ms| - 1]), known, m.userId, m.clk).0
  }

  ghost function NextState(v: Issuance, t: string, m: Message): Issuance {
    Issue(v, ConfigOf(t).Some?, m.userId, m.clk).0
  }

  /** The state of type `t` when the i-th message is read. */
  ghost function StateBefore(v: Issuance, ms: seq<Message>, i: nat, t: string): Issuance
    requires i <= |ms|
  {
    if i == 0 then v
    else if ms[i - 1].couponType == t then NextState(StateBefore(v, ms, i - 1, t), t, ms[i - 1])
    else StateBefore(v, ms, i - 1, t)
  }

  /** What the topic delivers: a request, or bytes that do not parse. */
  datatype Delivery = Parsed(m: Message) | Garbled

  datatype Response =
    | Granted(userId: int, couponType: string, couponId: nat)
    | Failed(userId: int, couponType: string, why: Outcome)

  /** The deliveries that parse. */
  function Readable(ds: seq<Delivery>): seq<Message> {
    if ds == [] then []
    else Readable(ds[..|ds| - 1]) + if ds[|ds| - 1].Parsed? then [ds[|ds| - 1].m] else []
  }

  ghost function Verdict(v: Issuance, t: string, m: Message): Outcome {
    Issue(v, ConfigOf(t).Some?, m.userId, m.clk).1
  }

  /** A response names its request's user and type, and grants exactly when a coupon was issued. */
  predicate Replies(r: Response, m: Message, verdict: Outcome) {
    && r.userId == m.userId && r.couponType == m.couponType
    && if verdict.Issued? then r.Granted? else r == Failed(m.userId, m.couponType, verdict)
  }

  /** The response to message k of type `t` follows from the messages of that type before it. */
  ghost predicate Answered(responses: seq<Response>, v: Issuance, ms: seq<Message>, t: string)
    requires |responses| == |ms|
  {
    forall k :: 0 <= k < |ms| && ms[k].couponType == t ==>
      Replies(responses[k], ms[k], Verdict(StateBefore(v, ms, k, t), t, ms[k]))
  }

  /** Every coupon id in a response is the row of that user and type. */
  ghost predicate Recorded(responses: seq<Response>, coupons: seq<CouponRow>) {
    forall k :: 0 <= k < |responses| && responses[k].Granted? ==>
      var id := responses[k].couponId;
      && 1 <= id <= |coupons|
      && coupons[id - 1].userId == responses[k].userId && coupons[id - 1].couponType == responses[k].couponType
  }

  /** The response to a request that ended with `outcome`, when the last of `count` coupons is its own. */
  function ResponseTo(m: Message, outcome: Outcome, count: nat): Response {
    if outcome.Issued? then Granted(m.userId, m.couponType, count) else Failed(m.userId, m.couponType, outcome)
  }

  lemma ResponseRecorded(before: seq<CouponRow>, after: seq<CouponRow>, m: Message, outcome: Outcome)
    requires outcome.Issued? ==> ConfigOf(m.couponType).Some?
                                 && after == before + [NewCoupon(m.userId, m.couponType, m.clk.issued)]
    requires !outcome.Issued? ==> after == before
    ensures Replies(ResponseTo(m, outcome, |after|), m, outcome)
    ensures Recorded([ResponseTo(m, outcome, |after|)], after)
    ensures before <= after
  {
  }

  lemma {:induction false} StateBeforePrefix(v: Issuance, ms: seq<Message>, more: seq<Message>, i: nat, t: string)
    requires i <= |ms|
    ensures StateBefore(v, ms + more, i, t) == StateBefore(v, ms, i, t)
  {
    if i > 0 {
      StateBeforePrefix(v, ms, more, i - 1, t);
    }
  }

  lemma AnswerOneMore(responses: seq<Response>, r: Response, v: Issuance, ms: seq<Message>, m: Message, t: string)
    requires |responses| == |ms| && Answered(responses, v, ms, t)
    requires m.couponType == t ==> Replies(r, m, Verdict(StateBefore(v, ms, |ms|, t), t, m))
    ensures Answered(responses + [r], v, ms + [m], t)
  {
    var ms' := ms + [m];
    forall k | 0 <= k < |ms'| && ms'[k].couponType == t
      ensures Replies((responses + [r])[k], ms'[k], Verdict(StateBefore(v, ms', k, t), t, ms'[k]))
    {
      StateBeforePrefix(v, ms, [m], k, t);
    }
  }

  /** State and responses after the messages `ms`. */
  ghost predicate Consumed(responses: seq<Response>, now: Issuance, v: Issuance, ms: seq<Message>, t: string) {
    |responses| == |ms| && now == StateBefore(v, ms, |ms|, t) && Answered(responses, v, ms, t)
  }

  lemma ConsumedOneMore(responses: seq<Response>, r: Response, now: Issuance, now': Issuance, v: Issuance,
                        ms: seq<Message>, m: Message, t: string)
    requires Consumed(responses, now, v, ms, t)
    requires m.couponType == t ==> now' == NextState(now, t, m) && Replies(r, m, Verdict(now, t, m))
    requires m.couponType != t ==> now' == now
    ensures Consumed(responses + [r], now', v, ms + [m], t)
  {
    AnswerOneMore(responses, r, v, ms, m, t);
    StateBeforePrefix(v, ms, [m], |ms|, t);
  }

  lemma RecordedOneMore(responses: seq<Response>, r: Response, coupons: seq<CouponRow>, coupons': seq<CouponRow>)
    requires Recorded(responses, coupons) && coupons <= coupons' && Recorded([r], coupons')
    ensures Recorded(responses + [r], coupons')
  {
    assert [r][0] == r;
  }

  /** Only the messages of the type itself matter. */
  lemma {:induction false} OnlyOwnMessages(v: Issuance, ms: seq<Message>, i: nat, t: string)
    requires i <= |ms|
    ensures StateBefore(v, ms, i, t) == IssueAll(v, ConfigOf(t).Some?, OfType(ms[..i], t))
  {
    if i > 0 {
      OnlyOwnMessages(v, ms, i - 1, t);
      var of := OfType(ms[..i - 1], t);
      assert ms[..i][..i - 1] == ms[..i - 1];
      if ms[i - 1].couponType == t {
        assert (of + [ms[i - 1]])[..|of|] == of;
      } else {
        assert of + [] == of;
      }
    }
  }

  /** The consumer handles message after message; a failed issue becomes an error response. */
  class KafkaCouponConsumer {
    const service: CouponsService

    constructor (service: CouponsService)
      ensures this.service == service
    {
      this.service := service;
    }

    /** One delivery: issues and responds; what does not parse is logged, without a response. */
    method HandleCouponIssueRequest(d: Delivery, ghost t: string) returns (r: Option<Response>)
      requires service.Valid()
      modifies service`coupons, service.redis
      ensures service.Valid()
      ensures d.Garbled? ==> r.None? && service.State(t) == old(service.State(t))
      ensures d.Garbled? ==> service.coupons == old(service.coupons)
      ensures d.Parsed? && d.m.couponType == t ==> service.State(t) == NextState(old(service.State(t)), t, d.m)
      ensures d.Parsed? && d.m.couponType == t ==>
                r.Some? && Replies(r.value, d.m, Verdict(old(service.State(t)), t, d.m))
      ensures d.Parsed? && d.m.couponType != t ==> service.State(t) == old(service.State(t))
      ensures d.Parsed? ==> r.Some? && Recorded([r.value], service.coupons)
      ensures old(service.coupons) <= service.coupons
    {
      if d.Garbled? {
        return None;
      }
      ghost var store, coupons := service.redis.testLocks, service.coupons;
      var m := d.m;
      var outcome := service.IssueCoupon(m.userId, m.couponType, m.clk);
      if m.couponType != t {
        OtherTypeUntouched(store, service.redis.testLocks, coupons, m.couponType, t);
      }
      ResponseRecorded(coupons, service.coupons, m, outcome);
      r := Some(ResponseTo(m, outcome, |service.coupons|));
    }

    /** Whatever the mix of types, each type's state is its own messages replayed in order. */
    method Consume(deliveries: seq<Delivery>, ghost t: string) returns (responses: seq<Response>)
      requires service.Valid()
      modifies service`coupons, service.redis
      ensures service.Valid()
      ensures Consumed(responses, service.State(t), old(service.State(t)), Readable(deliveries), t)
      ensures Recorded(responses, service.coupons)
    {
      ghost var v0, ms := service.State(t), [];
      responses := [];
      for i := 0 to |deliveries|
        invariant service.Valid()
        invariant ms == Readable(deliveries[..i])
        invariant Consumed(responses, service.State(t), v0, ms, t)
        invariant Recorded(responses, service.coupons)
      {
        assert deliveries[..i + 1][..i] == deliveries[..i];
        ghost var v, coupons := service.State(t), service.coupons;
        var r := HandleCouponIssueRequest(deliveries[i], t);
        if r.Some? {
          ConsumedOneMore(responses, r.value, v, service.State(t), v0, ms, deliveries[i].m, t);
          RecordedOneMore(responses, r.value, coupons, service.coupons);
          responses := responses + [r.value];
          ms := ms + [deliveries[i].m];
        }
      }
      assert deliveries[..|deliveries|] == deliveries;
    }
  }

  // ----- who holds a coupon

  /** The users of the messages that were read before the end time, in order. */
  function OnTime(end: Option<Cell>, ms: seq<Message>): seq<int> {
    if ms == [] then []
    else
      var m := ms[|ms| - 1];
      OnTime(end, ms[..|ms| - 1]) + if Late(end, m.clk.check) then [] else [m.userId]
  }

  /** Each user once, where it first occurs. */
  function FirstDistinct(us: seq<int>): seq<int> {
    if us == [] then []
    else
      var before := FirstDistinct(us[..|us| - 1]);
      if us[|us| - 1] in before then before else before + [us[|us| - 1]]
  }

  function Take(s: seq<int>, n: int): seq<int> {
    s[..Min(Max(n, 0), |s|)]
  }

  /** A type before its first request: stock set, nothing else written. */
  ghost predicate Fresh(v: Issuance) {
    v.queue == [] && v.issued == [] && v.ranks == [] && v.holders == []
  }

  /** The state between two messages of a serial run. */
  ghost predicate BetweenMessages(v: Issuance, stock: int, end: Option<Cell>, us: seq<int>) {
    && v.end == end
    && v.queue == []
    && v.holders == Take(FirstDistinct(us), stock)
    && v.stock == stock - |v.holders|
    && |v.issued| == |v.ranks| == |v.holders|
    && (forall i :: 0 <= i < |v.holders| ==>
          v.issued[i].member == v.holders[i] && v.issued[i].score != 0 && v.ranks[i] == Entry(v.holders[i], 0))
  }

  lemma {:induction false} FirstDistinctMeaning(us: seq<int>)
    ensures NoDuplicates(FirstDistinct(us))
    ensures Elements(FirstDistinct(us)) == Elements(us)
    ensures |FirstDistinct(us)| == |Elements(us)|
  {
    if us != [] {
      var n := |us| - 1;
      FirstDistinctMeaning(us[..n]);
      assert us == us[..n] + [us[n]];
      assert Elements(us) == Elements(us[..n]) + {us[n]};
    }
    NoDuplicatesCardinality(FirstDistinct(us));
  }

  lemma HolderSeen(v: Issuance, stock: int, end: Option<Cell>, us: seq<int>, user: int)
    requires BetweenMessages(v, stock, end, us)
    ensures Unique(v.issued) && Unique(v.ranks)
    ensures Has(v.issued, user) <==> user in v.holders
    ensures Has(v.ranks, user) <==> user in v.holders
    ensures ScoreSeen(v.issued, user).Some? <==> user in v.holders
  {
    FirstDistinctMeaning(us);
    if user in v.holders {
      var i :| 0 <= i < |v.holders| && v.holders[i] == user;
      assert v.issued[i].member == user && v.ranks[i].member == user;
      IndexOfAt(v.issued, i);
    }
  }

  lemma AloneInQueue(user: int, now: int)
    ensures Put([], user, now) == [Entry(user, now)]
    ensures Delete(Put([], user, now), user) == []
    ensures QueueRank(Put([], user, now), user) == 0
  {
    assert !Has([], user);
    var one := [Entry(user, now)];
    assert one[0].member == user;
    assert Has(one, user) && IndexOf(one, user) == 0;
    assert SortByScore(one) == Insert(SortByScore([]), one[0]) by {
      assert one[..0] == [];
    }
    assert SortByScore(one) == one;
  }

  /** One more message: its user gets a coupon exactly when it is new, on time and in stock. */
  lemma OneMessage(v: Issuance, stock: int, end: Option<Cell>, us: seq<int>, user: int, clk: Clock)
    requires BetweenMessages(v, stock, end, us) && Running(clk)
    ensures BetweenMessages(Issue(v, true, user, clk).0, stock, end, us + if Late(end, clk.check) then [] else [user])
  {
    HolderSeen(v, stock, end, us, user);
    AloneInQueue(user, clk.queued);
    assert !Has(v.queue, user);
    if Late(end, clk.check) {
      assert us + [] == us;
    } else {
      var us' := us + [user];
      assert us'[..|us|] == us;
      var d := FirstDistinct(us);
      FirstDistinctMeaning(us);
      if user in v.holders {
        assert user in d;
      } else if v.stock - 1 < 0 {
        assert Take(FirstDistinct(us'), stock) == Take(d, stock);
      } else {
        OneMoreHolder(v, stock, end, us, user, clk);
      }
    }
  }

  /** A new user with a unit of stock left: one coupon more. */
  lemma OneMoreHolder(v: Issuance, stock: int, end: Option<Cell>, us: seq<int>, user: int, clk: Clock)
    requires BetweenMessages(v, stock, end, us) && Running(clk)
    requires !Late(end, clk.check) && user !in v.holders && v.stock - 1 >= 0
    ensures BetweenMessages(Issue(v, true, user, clk).0, stock, end, us + [user])
  {
    var us', d := us + [user], FirstDistinct(us);
    assert us'[..|us|] == us;
    HolderSeen(v, stock, end, us, user);
    AloneInQueue(user, clk.queued);
    assert !Has(v.queue, user);
    assert v.holders == d;
    var v' := Issue(v, true, user, clk).0;
    assert v'.issued == v.issued + [Entry(user, clk.issued)];
    assert v'.ranks == v.ranks + [Entry(user, 0)];
    assert FirstDistinct(us') == d + [user];
  }

  lemma {:induction false} SerialRun(v0: Issuance, ms: seq<Message>)
    requires Fresh(v0)
    requires forall i :: 0 <= i < |ms| ==> Running(ms[i].clk)
    ensures BetweenMessages(IssueAll(v0, true, ms), v0.stock, v0.end, OnTime(v0.end, ms))
  {
    if ms != [] {
      var n := |ms| - 1;
      SerialRun(v0, ms[..n]);
      OneMessage(IssueAll(v0, true, ms[..n]), v0.stock, v0.end, OnTime(v0.end, ms[..n]), ms[n].userId, ms[n].clk);
    }
  }

  /** The i-th coupon was issued by the message that brought the i-th distinct on-time user. */
  ghost predicate ServedBy(v: Issuance, end: Option<Cell>, ms: seq<Message>, i: nat, k: nat)
    requires i < |v.holders| == |v.issued|
  {
    && k < |ms|
    && ms[k].userId == v.holders[i]
    && ms[k].clk.issued == v.issued[i].score
    && !Late(end, ms[k].clk.check)
    && |Elements(OnTime(end, ms[..k]))| == i
  }

  ghost predicate ServedInTurn(v: Issuance, end: Option<Cell>, ms: seq<Message>, i: nat)
    requires i < |v.holders| == |v.issued|
  {
    exists k: nat :: ServedBy(v, end, ms, i, k)
  }

  lemma {:induction false} IssueTimes(v0: Issuance, ms: seq<Message>, i: nat) returns (k: nat)
    requires Fresh(v0)
    requires forall j :: 0 <= j < |ms| ==> Running(ms[j].clk)
    requires i < |IssueAll(v0, true, ms).holders|
    ensures |IssueAll(v0, true, ms).issued| == |IssueAll(v0, true, ms).holders|
    ensures ServedBy(IssueAll(v0, true, ms), v0.end, ms, i, k)
  {
    var n := |ms| - 1;
    var v, v' := IssueAll(v0, true, ms[..n]), IssueAll(v0, true, ms);
    var us := OnTime(v0.end, ms[..n]);
    SerialRun(v0, ms[..n]);
    SerialRun(v0, ms);
    if i < |v.holders| {
      k := IssueTimes(v0, ms[..n], i);
      assert ms[..n][..k] == ms[..k];
      HolderSeen(v, v0.stock, v0.end, us, ms[n].userId);
    } else {
      k := n;
      HolderSeen(v, v0.stock, v0.end, us, ms[n].userId);
      FirstDistinctMeaning(us);
      assert v.holders == FirstDistinct(us);
    }
  }

  lemma {:induction false} FirstDistinctPrefix(us: seq<int>, i: nat)
    requires i <= |us|
    ensures FirstDistinct(us[..i]) <= FirstDistinct(us)
  {
    if i < |us| {
      FirstDistinctPrefix(us[..|us| - 1], i);
      assert us[..|us| - 1][..i] == us[..i];
    } else {
      assert us[..i] == us;
    }
  }

  /** The j-th distinct user arrived when exactly j others had. */
  lemma {:induction false} ArrivalOf(us: seq<int>, j: nat) returns (i: nat)
    requires j < |FirstDistinct(us)|
    ensures i < |us| && us[i] == FirstDistinct(us)[j] && |FirstDistinct(us[..i])| == j
  {
    var n := |us| - 1;
    var before := FirstDistinct(us[..n]);
    if j < |before| {
      i := ArrivalOf(us[..n], j);
      assert us[..n][..i] == us[..i];
    } else {
      i := n;
    }
  }

  /** Some message of the user came when fewer than n distinct users had come. */
  ghost predicate InTime(us: seq<int>, n: int, user: int) {
    exists i :: 0 <= i < |us| && us[i] == user && |Elements(us[..i])| < n
  }

  lemma InTimeIsEarly(us: seq<int>, n: int, user: int)
    requires InTime(us, n, user)
    ensures user in Take(FirstDistinct(us), n)
  {
    var i :| 0 <= i < |us| && us[i] == user && |Elements(us[..i])| < n;
    var d := FirstDistinct(us);
    FirstDistinctMeaning(us[..i]);
    FirstDistinctPrefix(us, i + 1);
    assert us[..i + 1][..i] == us[..i];
    var upTo := FirstDistinct(us[..i + 1]);
    var j :| 0 <= j < |upTo| && upTo[j] == user;
    assert d[j] == user;
    assert Take(d, n)[j] == user;
  }

  /** Being among the first n distinct users, said by counting who came before. */
  lemma AmongFirst(us: seq<int>, n: int, user: int)
    ensures user in Take(FirstDistinct(us), n) <==> InTime(us, n, user)
  {
    var first := Take(FirstDistinct(us), n);
    if user in first {
      var j :| 0 <= j < |first| && first[j] == user;
      var i := ArrivalOf(us, j);
      FirstDistinctMeaning(us[..i]);
    }
    if InTime(us, n, user) {
      InTimeIsEarly(us, n, user);
    }
  }

  /**
   For any messages of a known type, redelivered duplicates included: a user holds a coupon
   exactly when fewer than N distinct users were on time before it, coupons are held in
   arrival order and once each, the queue is empty and the stock is what remains.
   */
  lemma SerialFirstCome(v0: Issuance, ms: seq<Message>)
    requires Fresh(v0)
    requires forall i :: 0 <= i < |ms| ==> Running(ms[i].clk)
    ensures var v, us := IssueAll(v0, true, ms), OnTime(v0.end, ms);
            && (forall u :: u in v.holders <==> InTime(us, v0.stock, u))
            && v.holders <= FirstDistinct(us)
            && NoDuplicates(v.holders)
            && |v.holders| == Min(Max(v0.stock, 0), |Elements(us)|)
            && v.queue == []
            && v.stock == v0.stock - |v.holders|
  {
    SerialRun(v0, ms);
    var us := OnTime(v0.end, ms);
    FirstDistinctMeaning(us);
    forall u
      ensures u in Take(FirstDistinct(us), v0.stock) <==> InTime(us, v0.stock, u)
    {
      AmongFirst(us, v0.stock, u);
    }
  }

  // ----- a type that the service does not know

  /** Between two messages of an unknown type: units are lost and the users stay queued, without a coupon. */
  ghost predicate BetweenUnknown(v: Issuance, stock: int, end: Option<Cell>, us: seq<int>) {
    && v.end == end
    && v.holders == [] && v.issued == [] && v.ranks == []
    && |v.queue| == |Take(FirstDistinct(us), stock)|
    && v.stock == stock - |v.queue|
    && forall i :: 0 <= i < |v.queue| ==>
         v.queue[i].member == Take(FirstDistinct(us), stock)[i] && v.queue[i].score != 0
  }

  lemma QueuedSeen(v: Issuance, stock: int, end: Option<Cell>, us: seq<int>, user: int)
    requires BetweenUnknown(v, stock, end, us)
    ensures Unique(v.queue)
    ensures ScoreSeen(v.queue, user).Some? <==> user in Take(FirstDistinct(us), stock)
    ensures Has(v.queue, user) <==> user in Take(FirstDistinct(us), stock)
  {
    FirstDistinctMeaning(us);
    var queued := Take(FirstDistinct(us), stock);
    if user in queued {
      var i :| 0 <= i < |queued| && queued[i] == user;
      assert v.queue[i].member == user;
      IndexOfAt(v.queue, i);
    }
  }

  /** A user who is not in a list can be put at its end and taken off again. */
  lemma PutThenDelete(es: Entries, user: int, score: int)
    requires Unique(es) && !Has(es, user)
    ensures Put(es, user, score) == es + [Entry(user, score)]
    ensures Delete(Put(es, user, score), user) == es
  {
    PutMeaning(es, user, score);
  }

  /** The lost unit and the queue entry of one request, and what the same user's next request gets. */
  lemma UnknownStaysQueued(v: Issuance, user: int, clk: Clock, later: Clock)
    requires Unique(v.queue) && !Has(v.queue, user) && v.stock > 0 && Running(clk)
    requires ScoreSeen(v.issued, user).None? && !Late(v.end, clk.check)
    ensures var (v', o) := Issue(v, false, user, clk);
            && o == UnknownType
            && v' == v.(stock := v.stock - 1, queue := v.queue + [Entry(user, clk.queued)])
            && Issue(v', false, user, later) == (v', NotAvailable)
  {
    PutThenDelete(v.queue, user, clk.queued);
    PutMeaning(v.queue, user, clk.queued);
    var queue := v.queue + [Entry(user, clk.queued)];
    assert queue[|v.queue|] == Entry(user, clk.queued);
    IndexOfAt(queue, |v.queue|);
  }

  lemma OneUnknownMessage(v: Issuance, stock: int, end: Option<Cell>, us: seq<int>, user: int, clk: Clock)
    requires BetweenUnknown(v, stock, end, us) && Running(clk)
    ensures var us' := us + if Late(end, clk.check) then [] else [user];
            BetweenUnknown(Issue(v, false, user, clk).0, stock, end, us')
  {
    QueuedSeen(v, stock, end, us, user);
    assert !Has(v.issued, user);
    if Late(end, clk.check) {
      assert us + [] == us;
    } else {
      var us', d := us + [user], FirstDistinct(us);
      assert us'[..|us|] == us;
      if user in Take(d, stock) {
        assert user in d;
      } else if v.stock - 1 < 0 {
        PutThenDelete(v.queue, user, clk.queued);
        assert Take(FirstDistinct(us'), stock) == Take(d, stock);
      } else {
        OneMoreLeaks(v, stock, end, us, user, clk);
      }
    }
  }

  /** A new user with a unit of stock left: the unit is lost and the user stays queued. */
  lemma OneMoreLeaks(v: Issuance, stock: int, end: Option<Cell>, us: seq<int>, user: int, clk: Clock)
    requires BetweenUnknown(v, stock, end, us) && Running(clk)
    requires !Late(end, clk.check) && user !in Take(FirstDistinct(us), stock) && v.stock - 1 >= 0
    ensures BetweenUnknown(Issue(v, false, user, clk).0, stock, end, us + [user])
  {
    var us', d := us + [user], FirstDistinct(us);
    assert us'[..|us|] == us;
    QueuedSeen(v, stock, end, us, user);
    assert !Has(v.issued, user);
    PutThenDelete(v.queue, user, clk.queued);
    assert Take(d, stock) == d;
    assert FirstDistinct(us') == d + [user];
    var v' := Issue(v, false, user, clk).0;
    assert v'.queue == v.queue + [Entry(user, clk.queued)];
  }

  /**
   Messages of an unknown type issue nothing, yet each of the first N distinct on-time users takes
   a unit of stock for good and stays in the queue, so that its later requests are refused.
   */
  lemma {:induction false} UnknownTypeLeaks(v0: Issuance, ms: seq<Message>)
    requires Fresh(v0)
    requires forall i :: 0 <= i < |ms| ==> Running(ms[i].clk)
    ensures BetweenUnknown(IssueAll(v0, false, ms), v0.stock, v0.end, OnTime(v0.end, ms))
  {
    if ms != [] {
      var n := |ms| - 1;
      UnknownTypeLeaks(v0, ms[..n]);
      var v, us := IssueAll(v0, false, ms[..n]), OnTime(v0.end, ms[..n]);
      OneUnknownMessage(v, v0.stock, v0.end, us, ms[n].userId, ms[n].clk);
    }
  }

  // ----- the ranking

  lemma EqualScoresStaySorted(es: Entries)
    requires Unique(es)
    requires forall i :: 0 <= i < |es| ==> es[i].score == 0
    ensures SortByScore(es) == es
  {
    SortCorrect(es);
    forall i, j | 0 <= i < j < |es|
      ensures Precedes(es, es[i], es[j])
    {
      IndexOfAt(es, i);
      IndexOfAt(es, j);
    }
    SortDetermined(es, SortByScore(es), es);
  }

  /** How many rows a limit asks for: 0 means all of them, and a negative one drops from the end. */
  function RowCount(limit: int, holders: nat): nat {
    if limit == 0 then holders
    else if limit > 0 then Min(limit, holders)
    else Max(holders + limit, 0)
  }

  /** `n` rows: the first holders, ranks from 1, each with the time stored for that holder. */
  ghost predicate ListsInOrder(rows: seq<RankRow>, v: Issuance, n: nat) {
    && |rows| == n <= |v.holders| == |v.issued|
    && forall i :: 0 <= i < n ==>
         rows[i] == RankRow(v.holders[i], i + 1, v.issued[i].score) && v.issued[i].member == v.holders[i]
  }

  /** What one holder's row shows. */
  lemma RowOfHolder(v: Issuance, stock: int, end: Option<Cell>, us: seq<int>, limit: int, i: nat)
    requires BetweenMessages(v, stock, end, us) && i < RowCount(limit, |v.holders|)
    requires RangeOf(v.ranks, 0, limit - 1) == v.ranks[..RowCount(limit, |v.holders|)]
    ensures |RankRows(v, limit)| == RowCount(limit, |v.holders|)
    ensures RankRows(v, limit)[i] == RankRow(v.holders[i], i + 1, v.issued[i].score)
  {
    HolderSeen(v, stock, end, us, v.holders[i]);
    IndexOfAt(v.issued, i);
  }

  lemma RangeOfSorted(es: Entries, limit: int)
    requires SortByScore(es) == es
    ensures RangeOf(es, 0, limit - 1) == es[..RowCount(limit, |es|)]
  {
  }

  lemma RankingBetweenMessages(v: Issuance, stock: int, end: Option<Cell>, us: seq<int>, limit: int)
    requires BetweenMessages(v, stock, end, us)
    ensures ListsInOrder(RankRows(v, limit), v, RowCount(limit, |v.holders|))
  {
    var n := RowCount(limit, |v.holders|);
    HolderSeen(v, stock, end, us, 0);
    EqualScoresStaySorted(v.ranks);
    RangeOfSorted(v.ranks, limit);
    forall i: nat | i < n
      ensures RankRows(v, limit)[i] == RankRow(v.holders[i], i + 1, v.issued[i].score)
    {
      RowOfHolder(v, stock, end, us, limit, i);
    }
  }

  /** After any serial run the ranking lists the holders in the order they were served. */
  lemma RankingInIssuanceOrder(v0: Issuance, ms: seq<Message>, limit: int)
    requires Fresh(v0)
    requires forall i :: 0 <= i < |ms| ==> Running(ms[i].clk)
    ensures var v := IssueAll(v0, true, ms);
            && ListsInOrder(RankRows(v, limit), v, RowCount(limit, |v.holders|))
            && (forall i: nat :: i < |v.holders| ==> ServedInTurn(v, v0.end, ms, i))
  {
    SerialRun(v0, ms);
    forall i: nat | i < |IssueAll(v0, true, ms).holders|
      ensures ServedInTurn(IssueAll(v0, true, ms), v0.end, ms, i)
    {
      var k := IssueTimes(v0, ms, i);
    }
    RankingBetweenMessages(IssueAll(v0, true, ms), v0.stock, v0.end, OnTime(v0.end, ms), limit);
  }
}
