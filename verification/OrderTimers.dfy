/**
 Orders and their timers over whole runs: one timer an order until it fires, whose lines are
 the order's; what that means for stock, and for orders that were paid before it fired.
 */
module OrderTimers {
  import opened Common
  import opened Items
  import opened Entities
  import opened Shop
  import opened ShopLaws
  import opened ShopRuns

  /** How many live timers an order has. */
  function TimersFor(timers: seq<Notice>, id: nat): nat {
    if timers == [] then 0
    else TimersFor(timers[..|timers| - 1], id) + if timers[|timers| - 1].orderId == Some(id) then 1 else 0
  }

  /** The quantity of a product in the orders whose timer has not fired. */
  function Unfired(orders: seq<OrderRow>, fired: set<nat>, p: int): int {
    if orders == [] then 0
    else
      Unfired(orders[..|orders| - 1], fired, p)
      + if |orders| in fired then 0 else QuantityOf(ItemsOf(orders[|orders| - 1].items), p)
  }

  /** The quantity of a product in the PAID orders whose timer has fired. */
  function PaidAndFired(orders: seq<OrderRow>, fired: set<nat>, p: int): int {
    if orders == [] then 0
    else
      PaidAndFired(orders[..|orders| - 1], fired, p)
      + if |orders| in fired && orders[|orders| - 1].status == PAID
        then QuantityOf(ItemsOf(orders[|orders| - 1].items), p) else 0
  }

  // ----- lists of timers and orders

  lemma {:induction false} TimersForConcat(a: seq<Notice>, b: seq<Notice>, id: nat)
    ensures TimersFor(a + b, id) == TimersFor(a, id) + TimersFor(b, id)
  {
    if b == [] {
      assert a + b == a;
    } else {
      TimersForConcat(a, b[..|b| - 1], id);
      assert (a + b)[..|a + b| - 1] == a + b[..|b| - 1];
    }
  }

  lemma TimersForOne(n: Notice, id: nat)
    ensures TimersFor([n], id) == if n.orderId == Some(id) then 1 else 0
  {
    assert [n][..0] == [];
  }

  lemma TimersForWithout(timers: seq<Notice>, i: nat, id: nat)
    requires i < |timers|
    ensures TimersFor(Without(timers, i), id)
            == TimersFor(timers, id) - if timers[i].orderId == Some(id) then 1 else 0
  {
    TimersForConcat(timers[..i], timers[i + 1..], id);
    TimersForConcat(timers[..i] + [timers[i]], timers[i + 1..], id);
    TimersForConcat(timers[..i], [timers[i]], id);
    TimersForOne(timers[i], id);
    assert timers == timers[..i] + [timers[i]] + timers[i + 1..];
  }

  lemma {:induction false} UnfiredAfterFiring(orders: seq<OrderRow>, fired: set<nat>, id: nat, p: int)
    requires 1 <= id && id !in fired
    ensures Unfired(orders, fired + {id}, p)
            == Unfired(orders, fired, p) - if id <= |orders| then QuantityOf(ItemsOf(orders[id - 1].items), p) else 0
  {
    if orders != [] {
      UnfiredAfterFiring(orders[..|orders| - 1], fired, id, p);
    }
  }

  /** Only the lines of the orders matter. */
  lemma {:induction false} UnfiredKept(orders: seq<OrderRow>, orders': seq<OrderRow>, fired: set<nat>, p: int)
    requires |orders'| == |orders| && forall i :: 0 <= i < |orders| ==> orders'[i].items == orders[i].items
    ensures Unfired(orders', fired, p) == Unfired(orders, fired, p)
  {
    if orders != [] {
      UnfiredKept(orders[..|orders| - 1], orders'[..|orders| - 1], fired, p);
    }
  }

  lemma UnfiredAppend(orders: seq<OrderRow>, o: OrderRow, fired: set<nat>, p: int)
    requires |orders| + 1 !in fired
    ensures Unfired(orders + [o], fired, p) == Unfired(orders, fired, p) + QuantityOf(ItemsOf(o.items), p)
  {
    assert (orders + [o])[..|orders|] == orders;
  }

  // ----- the invariant

  /** A timer carries the lines and the coupon of its order, all of them taken from stock. */
  ghost predicate TimerOfOrder(db: Database, n: Notice) {
    && n.orderId.Some? && 1 <= n.orderId.value <= |db.orders|
    && var o := db.orders[n.orderId.value - 1];
       n.items == ItemsOf(o.items) && n.couponId == o.couponId && n.reserved == |n.items|
  }

  ghost predicate TimersSound(s: Run) {
    forall i :: 0 <= i < |s.db.timers| ==> TimerOfOrder(s.db, s.db.timers[i])
  }

  ghost predicate FiredSound(s: Run) {
    forall id :: id in s.fired ==> 1 <= id <= |s.db.orders|
  }

  ghost predicate OneTimerEach(s: Run) {
    forall id: nat ::
      TimersFor(s.db.timers, id) == if 1 <= id <= |s.db.orders| && id !in s.fired then 1 else 0
  }

  ghost predicate HoldsUnfired(s: Run) {
    forall p :: Held(s.db.timers, p) == Unfired(s.db.orders, s.fired, p)
  }

  /** Every order has lines, of positive quantity, for products that exist. */
  ghost predicate LinesSound(s: Run) {
    forall i :: 0 <= i < |s.db.orders| ==> ValidLines(s.db.products.Keys, ItemsOf(s.db.orders[i].items))
  }

  ghost predicate ValidLines(keys: set<int>, items: seq<Item>) {
    ValidItems(items) && forall i :: 0 <= i < |items| ==> items[i].productId in keys
  }

  ghost predicate TimerInvariant(s: Run) {
    TimersSound(s) && FiredSound(s) && OneTimerEach(s) && HoldsUnfired(s) && LinesSound(s)
  }

  lemma PlacedKeepsTimers(s: Run, e: Event)
    requires TimerInvariant(s) && e.Order?
    requires CreateOrder(s.db, e.userId, e.items, e.couponId, e.now).1.OrderPlaced?
    ensures TimerInvariant(Apply(s, e))
  {
    PlacedOrder(s.db, e.userId, e.items, e.couponId, e.now);
    StoringKeepsTimers(s, Apply(s, e), e.items, e.couponId);
  }

  lemma StoringKeepsTimers(s: Run, s': Run, items: seq<Item>, couponId: Option<int>)
    requires TimerInvariant(s)
    requires |s'.db.orders| == |s.db.orders| + 1 && s'.db.orders[..|s.db.orders|] == s.db.orders
    requires ItemsOf(s'.db.orders[|s.db.orders|].items) == items && s'.db.orders[|s.db.orders|].couponId == couponId
    requires s'.db.timers == s.db.timers + [Notice(Some(|s.db.orders| + 1), items, couponId, |items|)]
    requires s'.fired == s.fired && s'.db.products.Keys == s.db.products.Keys
    requires ValidLines(s.db.products.Keys, items)
    ensures TimerInvariant(s')
  {
    var o, n := s'.db.orders[|s.db.orders|], Notice(Some(|s.db.orders| + 1), items, couponId, |items|);
    assert s'.db.orders == s.db.orders + [o];
    forall id: nat
      ensures TimersFor(s'.db.timers, id) == TimersFor(s.db.timers, id) + if id == |s.db.orders| + 1 then 1 else 0
    {
      TimersForConcat(s.db.timers, [n], id);
      TimersForOne(n, id);
    }
    forall p
      ensures Held(s'.db.timers, p) == Unfired(s'.db.orders, s'.fired, p)
    {
      HeldAppend(s.db.timers, n, p);
      assert items[..|items|] == items;
      UnfiredAppend(s.db.orders, o, s.fired, p);
    }
    forall i | 0 <= i < |s'.db.timers|
      ensures TimerOfOrder(s'.db, s'.db.timers[i])
    {
      assert i < |s.db.timers| ==> TimerOfOrder(s.db, s.db.timers[i]);
    }
    forall i | 0 <= i < |s'.db.orders|
      ensures ValidLines(s'.db.products.Keys, ItemsOf(s'.db.orders[i].items))
    {
      assert i < |s.db.orders| ==> s'.db.orders[i] == s.db.orders[i];
    }
  }

  /** A step that leaves timers, products' ids and the orders' lines and coupons alone. */
  lemma QuietKeepsTimers(s: Run, s': Run)
    requires TimerInvariant(s)
    requires s'.db.timers == s.db.timers && s'.fired == s.fired && s'.db.products.Keys == s.db.products.Keys
    requires |s'.db.orders| == |s.db.orders|
    requires forall i :: 0 <= i < |s.db.orders| ==>
               s'.db.orders[i].items == s.db.orders[i].items && s'.db.orders[i].couponId == s.db.orders[i].couponId
    ensures TimerInvariant(s')
  {
    forall p
      ensures Held(s'.db.timers, p) == Unfired(s'.db.orders, s'.fired, p)
    {
      UnfiredKept(s.db.orders, s'.db.orders, s.fired, p);
    }
    forall i | 0 <= i < |s'.db.timers|
      ensures TimerOfOrder(s'.db, s'.db.timers[i])
    {
      assert TimerOfOrder(s.db, s.db.timers[i]);
    }
  }

  /** A timer that stands in the list belongs to an order whose timer has not fired. */
  lemma LiveTimer(s: Run, i: nat)
    requires TimerInvariant(s) && i < |s.db.timers|
    ensures TimerOfOrder(s.db, s.db.timers[i]) && s.db.timers[i].orderId.value !in s.fired
  {
    var id := s.db.timers[i].orderId.value;
    TimersForWithout(s.db.timers, i, id);
    assert TimersFor(s.db.timers, id) >= 1;
  }

  lemma FiringKeepsOneEach(s: Run, s': Run, i: nat, id: nat)
    requires OneTimerEach(s) && i < |s.db.timers| && s.db.timers[i].orderId == Some(id) && id !in s.fired
    requires s'.db.timers == Without(s.db.timers, i) && s'.fired == s.fired + {id} && s'.db.orders == s.db.orders
    ensures OneTimerEach(s')
  {
    forall x: nat
      ensures TimersFor(s'.db.timers, x) == if 1 <= x <= |s'.db.orders| && x !in s'.fired then 1 else 0
    {
      TimersForWithout(s.db.timers, i, x);
      assert TimersFor(s.db.timers, x) == if 1 <= x <= |s.db.orders| && x !in s.fired then 1 else 0;
    }
  }

  lemma FiringKeepsHolding(s: Run, s': Run, i: nat, id: nat)
    requires HoldsUnfired(s) && i < |s.db.timers| && id !in s.fired
    requires TimerOfOrder(s.db, s.db.timers[i]) && s.db.timers[i].orderId == Some(id)
    requires s'.db.timers == Without(s.db.timers, i) && s'.fired == s.fired + {id} && s'.db.orders == s.db.orders
    ensures HoldsUnfired(s')
  {
    var n := s.db.timers[i];
    forall p
      ensures Held(s'.db.timers, p) == Unfired(s'.db.orders, s'.fired, p)
    {
      HeldWithout(s.db.timers, i, p);
      UnfiredAfterFiring(s.db.orders, s.fired, id, p);
      assert n.items[..|n.items|] == n.items;
      assert Held(s.db.timers, p) == Unfired(s.db.orders, s.fired, p);
    }
  }

  lemma FiringKeepsTimers(s: Run, s': Run, i: nat)
    requires TimerInvariant(s) && i < |s.db.timers|
    requires s'.db.timers == Without(s.db.timers, i) && s'.fired == s.fired + OrderOf(s.db.timers[i])
    requires s'.db.orders == s.db.orders && s'.db.products.Keys == s.db.products.Keys
    ensures TimerInvariant(s')
  {
    LiveTimer(s, i);
    var id := s.db.timers[i].orderId.value;
    FiringKeepsOneEach(s, s', i, id);
    FiringKeepsHolding(s, s', i, id);
    forall k | 0 <= k < |s'.db.timers|
      ensures TimerOfOrder(s'.db, s'.db.timers[k])
    {
      assert TimerOfOrder(s.db, s.db.timers[if k < i then k else k + 1]);
    }
  }

  lemma TimerInvariantStep(s: Run, e: Event)
    requires TimerInvariant(s)
    ensures TimerInvariant(Apply(s, e))
  {
    var s' := Apply(s, e);
    match e
    case Order(u, items, c, now) =>
      if CreateOrder(s.db, u, items, c, now).1.OrderPlaced? {
        PlacedKeepsTimers(s, e);
      } else {
        FailedOrder(s.db, u, items, c, now);
        QuietKeepsTimers(s, s');
      }
    case DeliverFailure(i) =>
      if i < |s.db.failed| {
        RestoreFromMeaning(s.db.products, s.db.failed[i].items, 0);
      }
      QuietKeepsTimers(s, s');
    case TimerExpires(i) =>
      if i < |s.db.timers| {
        RestoreFromMeaning(s.db.products, s.db.timers[i].items, 0);
        FiringKeepsTimers(s, s', i);
      }
    case Pay(_) => QuietKeepsTimers(s, s');
    case Charge(_, _) => QuietKeepsTimers(s, s');
  }

  lemma {:induction false} TimerInvariantHolds(db0: Database, es: seq<Event>)
    requires Fresh(db0)
    ensures TimerInvariant(After(db0, es))
  {
    if es != [] {
      TimerInvariantHolds(db0, es[..|es| - 1]);
      TimerInvariantStep(After(db0, es[..|es| - 1]), es[|es| - 1]);
    }
  }

  // ----- laws

  /** Over every run: an order has exactly one timer until it fires, and it carries the order's lines. */
  lemma {:induction false} OneTimerUntilFired(db0: Database, es: seq<Event>, id: nat)
    requires Fresh(db0)
    ensures var s := After(db0, es);
            && TimersFor(s.db.timers, id) == (if 1 <= id <= |s.db.orders| && id !in s.fired then 1 else 0)
            && TimersSound(s)
  {
    TimerInvariantHolds(db0, es);
    assert OneTimerEach(After(db0, es));
  }

  /** The books by orders: what is off the shelf are the orders whose timer has not fired. */
  ghost predicate BalancedByOrders(db0: Database, s: Run, p: int)
    requires p in db0.products && p in s.db.products
  {
    s.db.products[p].stock + Unfired(s.db.orders, s.fired, p) + Held(s.db.failed, p)
    == db0.products[p].stock + Over(s.handled, db0.products.Keys, p)
  }

  /**
   Over every run, for each product: stock, plus the quantity in orders whose timer has not
   fired, plus what failures awaiting compensation hold, is the initial stock plus what handled
   failures gave back beyond what they held.
   */
  lemma StockByOrders(db0: Database, es: seq<Event>)
    requires Fresh(db0)
    ensures After(db0, es).db.products.Keys == db0.products.Keys
    ensures forall p :: p in db0.products ==> BalancedByOrders(db0, After(db0, es), p)
  {
    StockInvariantHolds(db0, es);
    TimerInvariantHolds(db0, es);
    var s := After(db0, es);
    forall p | p in db0.products
      ensures BalancedByOrders(db0, s, p)
    {
      assert Balanced(db0, s, p);
      assert Held(s.db.timers, p) == Unfired(s.db.orders, s.fired, p);
    }
  }

  /** The books as the shop would want them: a paid order's lines stay off the shelf for good. */
  ghost predicate PaidStaysSold(db0: Database, s: Run, p: int)
    requires p in db0.products && p in s.db.products
  {
    s.db.products[p].stock + Unfired(s.db.orders, s.fired, p) + PaidAndFired(s.db.orders, s.fired, p)
    + Held(s.db.failed, p)
    == db0.products[p].stock + Over(s.handled, db0.products.Keys, p)
  }

  ghost predicate PaidOnlyUnfired(s: Run) {
    forall id :: id in s.fired && 1 <= id <= |s.db.orders| ==> s.db.orders[id - 1].status != PAID
  }

  lemma {:induction false} NonePaidAndFired(orders: seq<OrderRow>, fired: set<nat>, p: int)
    requires forall id :: id in fired && 1 <= id <= |orders| ==> orders[id - 1].status != PAID
    ensures PaidAndFired(orders, fired, p) == 0
  {
    if orders != [] {
      NonePaidAndFired(orders[..|orders| - 1], fired, p);
    }
  }

  lemma {:induction false} SomePaidAndFired(orders: seq<OrderRow>, keys: set<int>, fired: set<nat>, id: nat, k: nat)
    requires forall i :: 0 <= i < |orders| ==> ValidLines(keys, ItemsOf(orders[i].items))
    requires id in fired && 1 <= id <= |orders| && orders[id - 1].status == PAID && k < |orders[id - 1].items|
    ensures PaidAndFired(orders, fired, orders[id - 1].items[k].productId) > 0
  {
    var p := orders[id - 1].items[k].productId;
    var last := |orders| - 1;
    if id == |orders| {
      QuantityOfPositive(ItemsOf(orders[last].items), k);
      PaidAndFiredNonNegative(orders[..last], keys, fired, p);
    } else {
      SomePaidAndFired(orders[..last], keys, fired, id, k);
      QuantityOfNonNegative(ItemsOf(orders[last].items), p);
    }
  }

  lemma {:induction false} PaidAndFiredNonNegative(orders: seq<OrderRow>, keys: set<int>, fired: set<nat>, p: int)
    requires forall i :: 0 <= i < |orders| ==> ValidLines(keys, ItemsOf(orders[i].items))
    ensures PaidAndFired(orders, fired, p) >= 0
  {
    if orders != [] {
      PaidAndFiredNonNegative(orders[..|orders| - 1], keys, fired, p);
      QuantityOfNonNegative(ItemsOf(orders[|orders| - 1].items), p);
    }
  }

  lemma SoldBooksExactly(db0: Database, s: Run, p: int)
    requires p in db0.products && p in s.db.products && BalancedByOrders(db0, s, p)
    ensures PaidStaysSold(db0, s, p) <==> PaidAndFired(s.db.orders, s.fired, p) == 0
  {
  }

  /** One paid order whose timer fired is enough to spoil the books of its first product. */
  lemma FiredSpoilsBooks(db0: Database, s: Run, id: nat)
    requires s.db.products.Keys == db0.products.Keys && LinesSound(s)
    requires forall p :: p in db0.products ==> BalancedByOrders(db0, s, p)
    requires id in s.fired && 1 <= id <= |s.db.orders| && s.db.orders[id - 1].status == PAID
    ensures !AllPaidStaySold(db0, s)
  {
    var items := ItemsOf(s.db.orders[id - 1].items);
    assert ValidLines(s.db.products.Keys, items);
    var p := items[0].productId;
    SomePaidAndFired(s.db.orders, s.db.products.Keys, s.fired, id, 0);
    SoldBooksExactly(db0, s, p);
  }

  ghost predicate AllPaidStaySold(db0: Database, s: Run)
    requires s.db.products.Keys == db0.products.Keys
  {
    forall p :: p in db0.products ==> PaidStaysSold(db0, s, p)
  }

  /** Over every run: paid orders' lines all stay off the shelf exactly when no paid order's timer has fired. */
  lemma {:induction false} PaidStaysSoldExactly(db0: Database, es: seq<Event>)
    requires Fresh(db0)
    ensures After(db0, es).db.products.Keys == db0.products.Keys
    ensures AllPaidStaySold(db0, After(db0, es)) <==> PaidOnlyUnfired(After(db0, es))
  {
    StockByOrders(db0, es);
    TimerInvariantHolds(db0, es);
    var s := After(db0, es);
    if PaidOnlyUnfired(s) {
      forall p | p in db0.products
        ensures PaidStaysSold(db0, s, p)
      {
        NonePaidAndFired(s.db.orders, s.fired, p);
        SoldBooksExactly(db0, s, p);
      }
    } else {
      var id :| id in s.fired && 1 <= id <= |s.db.orders| && s.db.orders[id - 1].status == PAID;
      FiredSpoilsBooks(db0, s, id);
    }
  }

  /** Firing timer i puts exactly its own order's lines back, whatever the order's status, and ends the timer. */
  ghost predicate FiringRestoresOrder(s: Run, i: nat)
    requires i < |s.db.timers|
  {
    var s', n := Apply(s, TimerExpires(i)), s.db.timers[i];
    && TimerOfOrder(s.db, n)
    && s'.db.products.Keys == s.db.products.Keys && s'.db.orders == s.db.orders
    && TimersFor(s'.db.timers, n.orderId.value) == 0
    && forall p :: p in s.db.products ==>
         s'.db.products[p].stock
         == s.db.products[p].stock + QuantityOf(ItemsOf(s.db.orders[n.orderId.value - 1].items), p)
  }

  lemma TimerRestores(s: Run, i: nat)
    requires TimerInvariant(s) && i < |s.db.timers|
    ensures FiringRestoresOrder(s, i)
  {
    var n := s.db.timers[i];
    LiveTimer(s, i);
    TimersForWithout(s.db.timers, i, n.orderId.value);
    RestoreFromMeaning(s.db.products, n.items, 0);
    LinesRestored(s.db.products.Keys, n.items);
  }

  /** In every reachable state: a timer that fires restores its own order's lines, and those only. */
  lemma {:induction false} FiringGivesBack(db0: Database, es: seq<Event>, i: nat)
    requires Fresh(db0) && i < |After(db0, es).db.timers|
    ensures FiringRestoresOrder(After(db0, es), i)
  {
    TimerInvariantHolds(db0, es);
    TimerRestores(After(db0, es), i);
  }

  /** The restore loop gets through lines whose products exist. */
  lemma LinesRestored(keys: set<int>, items: seq<Item>)
    requires ValidLines(keys, items)
    ensures RestoreStop(keys, items) == |items| && items[0..|items|] == items
  {
    StopAfter(keys, items, 0, |items|);
  }

  /** Any acceptable first order, paid and then overtaken by its timer. */
  function PaidThenTimedOut(userId: int, items: seq<Item>, couponId: Option<int>, now: int): seq<Event> {
    [Order(userId, items, couponId, now), Pay(1), TimerExpires(0)]
  }

  lemma AfterAppend(db0: Database, es: seq<Event>, e: Event)
    ensures After(db0, es + [e]) == Apply(After(db0, es), e)
  {
    assert (es + [e])[..|es|] == es;
  }

  lemma AfterOne(db0: Database, e: Event)
    ensures After(db0, [e]) == Apply(Run(db0, [], {}), e)
  {
    AfterAppend(db0, [], e);
    assert [] + [e] == [e];
  }

  lemma PayingFirst(s: Run, u: int)
    requires |s.db.orders| == 1
    requires var o := s.db.orders[0];
             && o.status == PENDING && o.userId == u && o.finalAmount >= 0
             && u in s.db.users && s.db.users[u].points >= o.finalAmount
    ensures var s' := Apply(s, Pay(1));
            && s'.db.orders == [s.db.orders[0].(status := PAID)]
            && s'.db.products == s.db.products && s'.db.timers == s.db.timers
  {
  }

  /** The timer of a first order, whatever happened to users and payments since. */
  lemma FirstTimerRestores(db0: Database, s: Run, items: seq<Item>, couponId: Option<int>)
    requires s.db.timers == [Notice(Some(1), items, couponId, |items|)]
    requires TakenFrom(db0.products, s.db.products, items, |items|)
    requires forall i :: 0 <= i < |items| ==> items[i].productId in db0.products
    ensures var s' := Apply(s, TimerExpires(0));
            s'.db.products == db0.products && s'.db.orders == s.db.orders && s'.db.users == s.db.users
            && s'.db.coupons == UnuseCoupon(s.db.coupons, couponId)
  {
    RestoreUndoesReserve(db0.products, s.db.products, items);
  }

  /** Whatever the shop and the order: it ends PAID, with every product as it was before the order. */
  lemma PaidOrderReturnsToStock(db0: Database, userId: int, items: seq<Item>, couponId: Option<int>, now: int)
    requires Fresh(db0) && Acceptable(db0, userId, items, couponId, now)
    ensures var s := After(db0, PaidThenTimedOut(userId, items, couponId, now));
            && |s.db.orders| == 1 && s.db.orders[0].status == PAID && ItemsOf(s.db.orders[0].items) == items
            && s.db.products == db0.products
  {
    OrderAcceptedExactly(db0, userId, items, couponId, now);
    PlacedOrder(db0, userId, items, couponId, now);
    var ordered := [Order(userId, items, couponId, now)];
    var paid := ordered + [Pay(1)];
    AfterOne(db0, Order(userId, items, couponId, now));
    AfterAppend(db0, ordered, Pay(1));
    AfterAppend(db0, paid, TimerExpires(0));
    assert PaidThenTimedOut(userId, items, couponId, now) == paid + [TimerExpires(0)];
    PayingFirst(After(db0, ordered), userId);
    FirstTimerRestores(db0, After(db0, paid), items, couponId);
  }
}
