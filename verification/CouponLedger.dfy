/** Coupons over whole runs of the shop: how often a coupon discounts an order. */
module CouponLedger {
  import opened Common
  import opened Items
  import opened Entities
  import opened Shop
  import opened ShopLaws
  import opened ShopRuns
  import opened OrderTimers
  import opened ShopLedger

  /** A stored order that used the coupon. */
  predicate Used(o: OrderRow, c: int) {
    o.couponUsed && o.couponId == Some(c)
  }

  /** How many stored orders a coupon discounted. */
  function UsesOf(orders: seq<OrderRow>, c: int): nat {
    if orders == [] then 0
    else UsesOf(orders[..|orders| - 1], c) + if Used(orders[|orders| - 1], c) then 1 else 0
  }

  function Mark(db: Database, c: int): nat {
    if c in db.coupons && db.coupons[c].isUsed then 1 else 0
  }

  /** The order names this coupon, which exists, is unused and has not expired. */
  predicate NamesUsable(db: Database, couponId: Option<int>, now: int, c: int) {
    couponId == Some(c) && c != 0 && c in db.coupons && UsableCoupon(db.coupons[c], now)
  }

  /**
   An order that uses the coupon up and is refused afterwards: it names it, its lines are valid
   and can all be taken, its user exists, but something later is wrong.
   */
  ghost predicate WastedBy(s: Run, e: Event, c: int) {
    && e.Order?
    && NamesUsable(s.db, e.couponId, e.now, c)
    && ValidItems(e.items) && AllTakeable(s.db.products, e.items) && e.userId in s.db.users
    && !Acceptable(s.db, e.userId, e.items, e.couponId, e.now)
  }

  /** The event that a compensation step handles. */
  function Handled(s: Run, e: Event): Option<Notice> {
    match e
    case DeliverFailure(i) => if i < |s.db.failed| then Some(s.db.failed[i]) else None
    case TimerExpires(i) => if i < |s.db.timers| then Some(s.db.timers[i]) else None
    case _ => None
  }

  /** A compensation whose event names the coupon, which is used, and whose lines' products all exist. */
  predicate FreedBy(s: Run, e: Event, c: int) {
    && Handled(s, e).Some?
    && var n := Handled(s, e).value;
       && n.couponId == Some(c) && c != 0
       && c in s.db.coupons && s.db.coupons[c].isUsed
       && RestoreStop(s.db.products.Keys, n.items) == |n.items|
  }

  ghost function Wasted(db0: Database, es: seq<Event>, c: int): nat {
    if es == [] then 0
    else
      Wasted(db0, es[..|es| - 1], c) + if WastedBy(After(db0, es[..|es| - 1]), es[|es| - 1], c) then 1 else 0
  }

  function Freed(db0: Database, es: seq<Event>, c: int): nat {
    if es == [] then 0
    else
      Freed(db0, es[..|es| - 1], c) + if FreedBy(After(db0, es[..|es| - 1]), es[|es| - 1], c) then 1 else 0
  }

  /** What the coupon of a placed order says afterwards, and that the order records its use. */
  lemma PlacedCoupon(db: Database, userId: int, items: seq<Item>, couponId: Option<int>, now: int, c: int)
    requires CreateOrder(db, userId, items, couponId, now).1.OrderPlaced?
    ensures var db' := CreateOrder(db, userId, items, couponId, now).0;
            && |db'.orders| == |db.orders| + 1
            && db'.coupons.Keys == db.coupons.Keys
            && (Used(db'.orders[|db.orders|], c) ==> c in db.coupons && Mark(db, c) == 0 && Mark(db', c) == 1)
            && (!Used(db'.orders[|db.orders|], c) ==> Mark(db', c) == Mark(db, c))
            && (Used(db'.orders[|db.orders|], c) <==> NamesUsable(db, couponId, now, c))
  {
  }

  lemma {:induction false} UsesKept(orders: seq<OrderRow>, orders': seq<OrderRow>, c: int)
    requires |orders'| == |orders|
    requires forall i :: 0 <= i < |orders| ==>
               orders'[i].couponUsed == orders[i].couponUsed && orders'[i].couponId == orders[i].couponId
    ensures UsesOf(orders', c) == UsesOf(orders, c)
  {
    if orders != [] {
      UsesKept(orders[..|orders| - 1], orders'[..|orders| - 1], c);
    }
  }

  lemma UsesAppend(orders: seq<OrderRow>, orders': seq<OrderRow>, c: int)
    requires |orders'| == |orders| + 1 && orders'[..|orders|] == orders
    ensures UsesOf(orders', c) == UsesOf(orders, c) + if Used(orders'[|orders|], c) then 1 else 0
  {
  }

  /** The books of one step. */
  ghost predicate StepBalances(s: Run, e: Event, c: int) {
    UsesOf(Apply(s, e).db.orders, c) + (if WastedBy(s, e, c) then 1 else 0) + Mark(s.db, c)
    == UsesOf(s.db.orders, c) + (if FreedBy(s, e, c) then 1 else 0) + Mark(Apply(s, e).db, c)
  }

  /** A refused order changes a coupon's mark exactly when it wastes that coupon. */
  lemma RefusedOrderMarks(s: Run, e: Event, c: int)
    requires e.Order? && !CreateOrder(s.db, e.userId, e.items, e.couponId, e.now).1.OrderPlaced?
    ensures Mark(Apply(s, e).db, c) == if WastedBy(s, e, c) then 1 else Mark(s.db, c)
    ensures WastedBy(s, e, c) ==> Mark(s.db, c) == 0
  {
    OrderAcceptedExactly(s.db, e.userId, e.items, e.couponId, e.now);
    if ValidItems(e.items) {
      ReservedExactly(s.db.products, e.items);
    }
  }

  lemma OrderBalances(s: Run, e: Event, c: int)
    requires e.Order?
    ensures StepBalances(s, e, c)
  {
    var db' := Apply(s, e).db;
    if CreateOrder(s.db, e.userId, e.items, e.couponId, e.now).1.OrderPlaced? {
      OrderAcceptedExactly(s.db, e.userId, e.items, e.couponId, e.now);
      PlacedOrder(s.db, e.userId, e.items, e.couponId, e.now);
      PlacedCoupon(s.db, e.userId, e.items, e.couponId, e.now, c);
      UsesAppend(s.db.orders, db'.orders, c);
    } else {
      FailedOrder(s.db, e.userId, e.items, e.couponId, e.now);
      RefusedOrderMarks(s, e, c);
    }
  }

  lemma OtherBalances(s: Run, e: Event, c: int)
    requires !e.Order?
    ensures StepBalances(s, e, c)
  {
    OrdersKeepCoupons(s, e);
    UsesKept(s.db.orders, Apply(s, e).db.orders, c);
    FreesExactly(s, e, c);
  }

  lemma OrdersKeepCoupons(s: Run, e: Event)
    requires !e.Order?
    ensures var orders, orders' := s.db.orders, Apply(s, e).db.orders;
            && |orders'| == |orders|
            && forall i :: 0 <= i < |orders| ==>
                 orders'[i].couponUsed == orders[i].couponUsed && orders'[i].couponId == orders[i].couponId
  {
  }

  /** Every other step changes a coupon's mark exactly when it is a compensation that frees it. */
  lemma FreesExactly(s: Run, e: Event, c: int)
    requires !e.Order?
    ensures Mark(Apply(s, e).db, c) == if FreedBy(s, e, c) then 0 else Mark(s.db, c)
    ensures FreedBy(s, e, c) ==> Mark(s.db, c) == 1
  {
    if Handled(s, e).Some? {
      CompensationMarks(s.db, Handled(s, e).value, c);
    } else {
      assert Apply(s, e).db.coupons == s.db.coupons;
    }
  }

  lemma CompensationMarks(db: Database, n: Notice, c: int)
    ensures Mark(Compensate(db, n), c)
            == if n.couponId == Some(c) && c != 0 && RestoreStop(db.products.Keys, n.items) == |n.items| then 0
               else Mark(db, c)
  {
  }

  /**
   Over every run, for every coupon: the orders it discounted, plus the failed orders it was
   wasted on, are the compensations that freed it plus its change of mark.
   */
  lemma {:induction false} CouponBooks(db0: Database, es: seq<Event>, c: int)
    requires Fresh(db0)
    ensures UsesOf(After(db0, es).db.orders, c) + Wasted(db0, es, c) + Mark(db0, c)
            == Freed(db0, es, c) + Mark(After(db0, es).db, c)
  {
    if es != [] {
      var before, e := es[..|es| - 1], es[|es| - 1];
      CouponBooks(db0, before, c);
      if e.Order? {
        OrderBalances(After(db0, before), e, c);
      } else {
        OtherBalances(After(db0, before), e, c);
      }
      assert StepBalances(After(db0, before), e, c);
    }
  }

  /** At most one order more than compensations that freed the coupon. */
  lemma {:induction false} UsesAtMostFreedPlusOne(db0: Database, es: seq<Event>, c: int)
    requires Fresh(db0)
    ensures UsesOf(After(db0, es).db.orders, c) <= 1 + Freed(db0, es, c)
  {
    CouponBooks(db0, es, c);
  }

  // ----- what stored orders say about their coupon

  /** `couponUsed` only with a coupon that exists; without it the order is at full price. */
  predicate SaysTheTruth(o: OrderRow, coupons: set<int>) {
    && (o.couponUsed ==> o.couponId.Some? && o.couponId.value != 0 && o.couponId.value in coupons)
    && (!o.couponUsed ==> o.discountAmount == 0 && o.finalAmount == o.totalAmount)
  }

  lemma PlacedSaysTheTruth(db: Database, userId: int, items: seq<Item>, couponId: Option<int>, now: int)
    requires CreateOrder(db, userId, items, couponId, now).1.OrderPlaced?
    ensures var db' := CreateOrder(db, userId, items, couponId, now).0;
            |db'.orders| == |db.orders| + 1 && SaysTheTruth(db'.orders[|db.orders|], db.coupons.Keys)
  {
    PlacedOrder(db, userId, items, couponId, now);
  }

  lemma CouponsStay(s: Run, e: Event)
    ensures Apply(s, e).db.coupons.Keys == s.db.coupons.Keys
  {
  }

  /** Over every run: no stored order says it used a coupon unless it names one that exists. */
  lemma {:induction false} OrdersSayTheTruth(db0: Database, es: seq<Event>, i: nat)
    requires Fresh(db0) && i < |After(db0, es).db.orders|
    ensures After(db0, es).db.coupons.Keys == db0.coupons.Keys
    ensures SaysTheTruth(After(db0, es).db.orders[i], db0.coupons.Keys)
  {
    if es != [] {
      var before, e := es[..|es| - 1], es[|es| - 1];
      var s, s' := After(db0, before), After(db0, es);
      CouponIdsStay(db0, es);
      CouponIdsStay(db0, before);
      if i < |s.db.orders| {
        OrdersSayTheTruth(db0, before, i);
        OneStepAdvances(s, e, i);
      } else {
        StepStores(s, e, i);
        PlacedSaysTheTruth(s.db, e.userId, e.items, e.couponId, e.now);
      }
    }
  }

  lemma {:induction false} CouponIdsStay(db0: Database, es: seq<Event>)
    ensures After(db0, es).db.coupons.Keys == db0.coupons.Keys
  {
    if es != [] {
      CouponIdsStay(db0, es[..|es| - 1]);
      CouponsStay(After(db0, es[..|es| - 1]), es[|es| - 1]);
    }
  }

  /** Only a placed order adds a row. */
  lemma StepStores(s: Run, e: Event, i: nat)
    requires |s.db.orders| <= i < |Apply(s, e).db.orders|
    ensures e.Order? && CreateOrder(s.db, e.userId, e.items, e.couponId, e.now).1.OrderPlaced? && i == |s.db.orders|
  {
    if e.Order? && CreateOrder(s.db, e.userId, e.items, e.couponId, e.now).1.OrderPlaced? {
      PlacedOrder(s.db, e.userId, e.items, e.couponId, e.now);
    }
  }

  // ----- two discounts from one coupon

  /** An order with a coupon, overtaken by its timer, and the same order again. */
  function UsedTwice(userId: int, items: seq<Item>, c: int, now: int): seq<Event> {
    [Order(userId, items, Some(c), now), TimerExpires(0), Order(userId, items, Some(c), now)]
  }

  /** After a first order and its timer the shop can take the same order again. */
  lemma BackToStart(db0: Database, userId: int, items: seq<Item>, c: int, now: int)
    requires Fresh(db0) && Acceptable(db0, userId, items, Some(c), now)
    requires c != 0 && c in db0.coupons && UsableCoupon(db0.coupons[c], now)
    ensures var s1 := Apply(Run(db0, [], {}), Order(userId, items, Some(c), now));
            var s2 := Apply(s1, TimerExpires(0));
            && |s2.db.orders| == 1 && Used(s2.db.orders[0], c)
            && Mark(db0, c) == 0 && Mark(s1.db, c) == 1 && Mark(s2.db, c) == 0
            && s2.db.products == db0.products && s2.db.users == db0.users
            && c in s2.db.coupons && s2.db.coupons[c] == db0.coupons[c]
  {
    OrderAcceptedExactly(db0, userId, items, Some(c), now);
    PlacedOrder(db0, userId, items, Some(c), now);
    PlacedCoupon(db0, userId, items, Some(c), now, c);
    FirstTimerRestores(db0, Apply(Run(db0, [], {}), Order(userId, items, Some(c), now)), items, Some(c));
    CouponKept(db0, userId, items, c, now);
  }

  /** A placed order changes nothing of its coupon but the mark. */
  lemma CouponKept(db: Database, userId: int, items: seq<Item>, c: int, now: int)
    requires CreateOrder(db, userId, items, Some(c), now).1.OrderPlaced?
    requires c != 0 && c in db.coupons && UsableCoupon(db.coupons[c], now)
    ensures var cs := CreateOrder(db, userId, items, Some(c), now).0.coupons;
            c in cs && cs[c] == db.coupons[c].(isUsed := true)
  {
  }

  lemma BooksAppend(db0: Database, es: seq<Event>, e: Event, c: int)
    ensures After(db0, es + [e]) == Apply(After(db0, es), e)
    ensures Wasted(db0, es + [e], c) == Wasted(db0, es, c) + if WastedBy(After(db0, es), e, c) then 1 else 0
    ensures Freed(db0, es + [e], c) == Freed(db0, es, c) + if FreedBy(After(db0, es), e, c) then 1 else 0
  {
    assert (es + [e])[..|es|] == es;
  }

  /** The order is taken again and uses the coupon again. */
  lemma SecondUse(db0: Database, s: Run, userId: int, items: seq<Item>, c: int, now: int)
    requires Acceptable(db0, userId, items, Some(c), now)
    requires c != 0 && c in db0.coupons && UsableCoupon(db0.coupons[c], now)
    requires s.db.products == db0.products && s.db.users == db0.users
    requires c in s.db.coupons && s.db.coupons[c] == db0.coupons[c]
    ensures var e := Order(userId, items, Some(c), now);
            !WastedBy(s, e, c) && UsesOf(Apply(s, e).db.orders, c) == UsesOf(s.db.orders, c) + 1
  {
    assert Acceptable(s.db, userId, items, Some(c), now);
    OrderAcceptedExactly(s.db, userId, items, Some(c), now);
    PlacedOrder(s.db, userId, items, Some(c), now);
    PlacedCoupon(s.db, userId, items, Some(c), now, c);
    UsesAppend(s.db.orders, Apply(s, Order(userId, items, Some(c), now)).db.orders, c);
  }

  /** Whatever the shop and the order: one coupon discounts it twice, and was freed once. */
  lemma CouponDiscountsTwice(db0: Database, userId: int, items: seq<Item>, c: int, now: int)
    requires Fresh(db0) && Acceptable(db0, userId, items, Some(c), now)
    requires c != 0 && c in db0.coupons && UsableCoupon(db0.coupons[c], now)
    ensures var es := UsedTwice(userId, items, c, now);
            UsesOf(After(db0, es).db.orders, c) == 2 && Freed(db0, es, c) == 1
  {
    var order := Order(userId, items, Some(c), now);
    var once := [order];
    var freed := once + [TimerExpires(0)];
    assert UsedTwice(userId, items, c, now) == freed + [order];
    BooksAppend(db0, [], order, c);
    assert [] + [order] == once;
    BooksAppend(db0, once, TimerExpires(0), c);
    BooksAppend(db0, freed, order, c);
    BackToStart(db0, userId, items, c, now);
    var s2 := After(db0, freed);
    SecondUse(db0, s2, userId, items, c, now);
    UsesAppend([], s2.db.orders, c);
  }

  /** A shop where a coupon can be used: the smallest one. */
  function SmallShop(): Database {
    Database(map[1 := ProductRow(10, 2)], map[1 := CouponRow(1, "FIXED", 0, 5, 0, false)], map[1 := UserRow(5)],
             [], [], [], [])
  }

  lemma SmallShopAccepts()
    ensures Fresh(SmallShop()) && Acceptable(SmallShop(), 1, [Item(1, 1)], Some(1), 0)
    ensures 1 in SmallShop().coupons && UsableCoupon(SmallShop().coupons[1], 0)
  {
    var items := [Item(1, 1)];
    assert items[..1] == items && items[..0] == [];
    assert QuantityOf(items, 1) == 1;
    assert TotalOf(SmallShop().products, items, 1) == 10;
  }

  /** One discount per coupon holds over all runs with at most `limit` freeings exactly when none is allowed. */
  lemma OneDiscountExactly(limit: nat)
    ensures (forall db0, es, c :: Fresh(db0) && Freed(db0, es, c) <= limit ==> UsesOf(After(db0, es).db.orders, c) <= 1)
            <==> limit == 0
  {
    if limit == 0 {
      forall db0, es, c | Fresh(db0) && Freed(db0, es, c) <= limit
        ensures UsesOf(After(db0, es).db.orders, c) <= 1
      {
        UsesAtMostFreedPlusOne(db0, es, c);
      }
    } else {
      SmallShopAccepts();
      CouponDiscountsTwice(SmallShop(), 1, [Item(1, 1)], 1, 0);
    }
  }
}
