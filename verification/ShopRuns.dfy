/**
 Whole runs: any sequence of orders, payments, charges, delivered failure events and fired
 timers, each one serial step. Accounting of stock, points and payments over every run.
 */
module ShopRuns {
  import opened Common
  import opened Items
  import opened Entities
  import opened Shop
  import opened ShopLaws

  datatype Event =
    | Order(userId: int, items: seq<Item>, couponId: Option<int>, now: int)
    | DeliverFailure(index: nat)
    | TimerExpires(index: nat)
    | Pay(orderId: int)
    | Charge(user: int, amount: int)

  /** The database, and as history the failure events handled and the orders whose timer fired. */
  datatype Run = Run(db: Database, handled: seq<Notice>, fired: set<nat>)

  function OrderOf(n: Notice): set<nat> {
    if n.orderId.Some? then {n.orderId.value} else {}
  }

  /** An event that does not exist leaves everything alone. */
  function Apply(s: Run, e: Event): Run {
    match e
    case Order(u, items, c, now) => s.(db := CreateOrder(s.db, u, items, c, now).0)
    case DeliverFailure(i) =>
      if i < |s.db.failed| then Run(CompensateFailed(s.db, i), s.handled + [s.db.failed[i]], s.fired) else s
    case TimerExpires(i) =>
      if i < |s.db.timers| then Run(FireTimer(s.db, i), s.handled, s.fired + OrderOf(s.db.timers[i])) else s
    case Pay(id) => s.(db := ProcessPayment(s.db, id).0)
    case Charge(u, a) => s.(db := ChargePoints(s.db, u, a).0)
  }

  function After(db0: Database, es: seq<Event>): Run {
    if es == [] then Run(db0, [], {}) else Apply(After(db0, es[..|es| - 1]), es[|es| - 1])
  }

  /** A shop before its first order. */
  predicate Fresh(db0: Database) {
    db0.orders == [] && db0.payments == [] && db0.timers == [] && db0.failed == []
  }

  // ----- stock

  /** What an event holds: the lines taken from stock for it. */
  function HeldBy(n: Notice, p: int): int {
    if n.reserved <= |n.items| then QuantityOf(n.items[..n.reserved], p) else 0
  }

  function Held(ns: seq<Notice>, p: int): int {
    if ns == [] then 0 else Held(ns[..|ns| - 1], p) + HeldBy(ns[|ns| - 1], p)
  }

  /** What handled failures gave back beyond what they held. */
  function Over(ns: seq<Notice>, keys: set<int>, p: int): int {
    if ns == [] then 0
    else
      var n := ns[|ns| - 1];
      Over(ns[..|ns| - 1], keys, p) + if n.reserved <= RestoreStop(keys, n.items) then OverRestored(keys, n, p) else 0
  }

  lemma {:induction false} HeldConcat(a: seq<Notice>, b: seq<Notice>, p: int)
    ensures Held(a + b, p) == Held(a, p) + Held(b, p)
  {
    if b == [] {
      assert a + b == a;
    } else {
      HeldConcat(a, b[..|b| - 1], p);
      assert (a + b)[..|a + b| - 1] == a + b[..|b| - 1];
    }
  }

  lemma HeldAppend(ns: seq<Notice>, n: Notice, p: int)
    ensures Held(ns + [n], p) == Held(ns, p) + HeldBy(n, p)
  {
    assert (ns + [n])[..|ns|] == ns;
  }

  lemma HeldWithout(ns: seq<Notice>, i: nat, p: int)
    requires i < |ns|
    ensures Held(Without(ns, i), p) == Held(ns, p) - HeldBy(ns[i], p)
  {
    HeldConcat(ns[..i], ns[i + 1..], p);
    HeldConcat(ns[..i] + [ns[i]], ns[i + 1..], p);
    HeldAppend(ns[..i], ns[i], p);
    assert ns == ns[..i] + [ns[i]] + ns[i + 1..];
  }

  /** Every event's taken lines name existing products; a timer's lines were all taken. */
  ghost predicate NoticesSound(db: Database) {
    && (forall i :: 0 <= i < |db.failed| ==> db.failed[i].reserved <= RestoreStop(db.products.Keys, db.failed[i].items))
    && (forall i :: 0 <= i < |db.timers| ==>
          db.timers[i].reserved == |db.timers[i].items| == RestoreStop(db.products.Keys, db.timers[i].items))
  }

  /** The books of one product. */
  ghost predicate Balanced(db0: Database, s: Run, p: int)
    requires p in db0.products && p in s.db.products
  {
    s.db.products[p].stock + Held(s.db.timers, p) + Held(s.db.failed, p)
    == db0.products[p].stock + Over(s.handled, db0.products.Keys, p)
  }

  ghost predicate StockInvariant(db0: Database, s: Run) {
    && s.db.products.Keys == db0.products.Keys
    && NoticesSound(s.db)
    && forall p :: p in db0.products ==> Balanced(db0, s, p)
  }

  lemma StoringBalances(db0: Database, s: Run, s': Run, n: Notice, p: int)
    requires p in db0.products && p in s.db.products && p in s'.db.products
    requires Balanced(db0, s, p) && n.reserved == |n.items|
    requires s'.db.timers == s.db.timers + [n] && s'.db.failed == s.db.failed && s'.handled == s.handled
    requires s'.db.products[p].stock == s.db.products[p].stock - QuantityOf(n.items[..|n.items|], p)
    ensures Balanced(db0, s', p)
  {
    HeldAppend(s.db.timers, n, p);
  }

  lemma PlacedKeepsStockInvariant(db0: Database, s: Run, e: Event)
    requires StockInvariant(db0, s) && e.Order?
    requires CreateOrder(s.db, e.userId, e.items, e.couponId, e.now).1.OrderPlaced?
    ensures StockInvariant(db0, Apply(s, e))
  {
    var s' := Apply(s, e);
    PlacedOrder(s.db, e.userId, e.items, e.couponId, e.now);
    StopAfter(s.db.products.Keys, e.items, 0, |e.items|);
    var n := Notice(Some(|s.db.orders| + 1), e.items, e.couponId, |e.items|);
    forall p | p in db0.products
      ensures Balanced(db0, s', p)
    {
      StoringBalances(db0, s, s', n, p);
    }
  }

  lemma FailedKeepsStockInvariant(db0: Database, s: Run, e: Event)
    requires StockInvariant(db0, s) && e.Order?
    requires !CreateOrder(s.db, e.userId, e.items, e.couponId, e.now).1.OrderPlaced?
    ensures StockInvariant(db0, Apply(s, e))
  {
    var s' := Apply(s, e);
    FailedOrder(s.db, e.userId, e.items, e.couponId, e.now);
    forall p | p in db0.products
      ensures Balanced(db0, s', p)
    {
      assert Balanced(db0, s, p);
      HeldAppend(s.db.failed, s'.db.failed[|s.db.failed|], p);
    }
  }

  lemma MoneyKeepsStockInvariant(db0: Database, s: Run, e: Event)
    requires StockInvariant(db0, s) && (e.Pay? || e.Charge?)
    ensures StockInvariant(db0, Apply(s, e))
  {
    var s' := Apply(s, e);
    assert s' == s.(db := s.db.(users := s'.db.users, orders := s'.db.orders, payments := s'.db.payments));
    forall p | p in db0.products
      ensures Balanced(db0, s', p)
    {
      assert Balanced(db0, s, p);
    }
  }

  lemma FailureKeepsStockInvariant(db0: Database, s: Run, i: nat)
    requires StockInvariant(db0, s) && i < |s.db.failed|
    ensures StockInvariant(db0, Apply(s, DeliverFailure(i)))
  {
    var s' := Apply(s, DeliverFailure(i));
    var n := s.db.failed[i];
    CompensateStock(s.db.(failed := Without(s.db.failed, i)), n);
    forall p | p in db0.products
      ensures Balanced(db0, s', p)
    {
      assert Balanced(db0, s, p);
      HeldWithout(s.db.failed, i, p);
      assert (s.handled + [n])[..|s.handled|] == s.handled;
    }
  }

  lemma TimerKeepsStockInvariant(db0: Database, s: Run, i: nat)
    requires StockInvariant(db0, s) && i < |s.db.timers|
    ensures StockInvariant(db0, Apply(s, TimerExpires(i)))
  {
    var s' := Apply(s, TimerExpires(i));
    var n := s.db.timers[i];
    CompensateStock(s.db.(timers := Without(s.db.timers, i)), n);
    assert n.items[|n.items|..|n.items|] == [];
    forall p | p in db0.products
      ensures Balanced(db0, s', p)
    {
      assert Balanced(db0, s, p);
      HeldWithout(s.db.timers, i, p);
    }
  }

  lemma StockInvariantStep(db0: Database, s: Run, e: Event)
    requires StockInvariant(db0, s)
    ensures StockInvariant(db0, Apply(s, e))
  {
    match e
    case Order(u, items, c, now) =>
      if CreateOrder(s.db, u, items, c, now).1.OrderPlaced? {
        PlacedKeepsStockInvariant(db0, s, e);
      } else {
        FailedKeepsStockInvariant(db0, s, e);
      }
    case DeliverFailure(i) =>
      if i < |s.db.failed| {
        FailureKeepsStockInvariant(db0, s, i);
      }
    case TimerExpires(i) =>
      if i < |s.db.timers| {
        TimerKeepsStockInvariant(db0, s, i);
      }
    case Pay(_) => MoneyKeepsStockInvariant(db0, s, e);
    case Charge(_, _) => MoneyKeepsStockInvariant(db0, s, e);
  }

  lemma {:induction false} StockInvariantHolds(db0: Database, es: seq<Event>)
    requires Fresh(db0)
    ensures StockInvariant(db0, After(db0, es))
  {
    if es == [] {
      forall p | p in db0.products
        ensures Balanced(db0, Run(db0, [], {}), p)
      {
      }
    } else {
      StockInvariantHolds(db0, es[..|es| - 1]);
      StockInvariantStep(db0, After(db0, es[..|es| - 1]), es[|es| - 1]);
    }
  }

  /**
   Over every run, for every product: stock, plus what live timers hold, plus what undelivered
   failures hold, is the initial stock plus what handled failures restored without having taken.
   */
  lemma {:induction false} StockAccounting(db0: Database, es: seq<Event>)
    requires Fresh(db0)
    ensures var s := After(db0, es);
            forall p :: p in db0.products ==>
              && p in s.db.products
              && s.db.products[p].stock + Held(s.db.timers, p) + Held(s.db.failed, p)
                 == db0.products[p].stock + Over(s.handled, db0.products.Keys, p)
  {
    StockInvariantHolds(db0, es);
    forall p | p in db0.products
      ensures Balanced(db0, After(db0, es), p)
    {
    }
  }

  /** Once every timer has fired and every failure is handled, nothing stays sold, paid or not. */
  lemma NothingStaysSold(db0: Database, es: seq<Event>, p: int)
    requires Fresh(db0) && p in db0.products
    requires After(db0, es).db.timers == [] && After(db0, es).db.failed == []
    ensures var s := After(db0, es);
            && p in s.db.products
            && s.db.products[p].stock == db0.products[p].stock + Over(s.handled, db0.products.Keys, p)
  {
    StockAccounting(db0, es);
  }

  // ----- stock below zero

  /** Every line of every order asks for at least `bound`. */
  ghost predicate QuantitiesAtLeast(es: seq<Event>, bound: int) {
    forall i, k :: 0 <= i < |es| && es[i].Order? && 0 <= k < |es[i].items| ==> es[i].items[k].quantity >= bound
  }

  predicate NonNegative(items: seq<Item>) {
    forall k :: 0 <= k < |items| ==> items[k].quantity >= 0
  }

  ghost predicate StocksCovered(db: Database) {
    forall p :: p in db.products ==> db.products[p].stock >= 0
  }

  ghost predicate NeverShort(s: Run) {
    && StocksCovered(s.db)
    && (forall i :: 0 <= i < |s.db.failed| ==> NonNegative(s.db.failed[i].items))
    && (forall i :: 0 <= i < |s.db.timers| ==> NonNegative(s.db.timers[i].items))
  }

  /** Taking lines that can be taken leaves no stock below 0. */
  lemma {:induction false} TakingStaysCovered(ps: Products, items: seq<Item>, n: nat, p: int)
    requires n <= |items| && p in ps && ps[p].stock >= 0
    requires forall i :: 0 <= i < n ==> Takeable(ps, items, i)
    ensures ps[p].stock - QuantityOf(items[..n], p) >= 0
  {
    if n > 0 {
      TakingStaysCovered(ps, items, n - 1, p);
      assert items[..n][..n - 1] == items[..n - 1];
      assert Takeable(ps, items, n - 1);
    }
  }

  lemma ReservingStaysCovered(db: Database, items: seq<Item>)
    requires StocksCovered(db)
    ensures forall p :: p in db.products ==>
              p in Reserve(db.products, items).products && Reserve(db.products, items).products[p].stock >= 0
    ensures Reserve(db.products, items).products.Keys == db.products.Keys
  {
    ReserveMeaning(db.products, items);
    var r := Reserve(db.products, items);
    forall p | p in db.products
      ensures r.products[p].stock >= 0
    {
      TakingStaysCovered(db.products, items, TakenBy(r, items), p);
    }
  }

  lemma OrderNeverShort(s: Run, u: int, items: seq<Item>, c: Option<int>, now: int)
    requires NeverShort(s) && NonNegative(items)
    ensures NeverShort(Apply(s, Order(u, items, c, now)))
  {
    ReservingStaysCovered(s.db, items);
    if CreateOrder(s.db, u, items, c, now).1.OrderPlaced? {
      PlacedOrder(s.db, u, items, c, now);
    } else {
      FailedOrder(s.db, u, items, c, now);
    }
  }

  lemma CompensateNeverShort(db: Database, n: Notice)
    requires StocksCovered(db) && NonNegative(n.items)
    ensures StocksCovered(Compensate(db, n))
  {
    RestoreFromMeaning(db.products, n.items, 0);
    var m := RestoreStop(db.products.Keys, n.items);
    forall p
      ensures QuantityOf(n.items[0..m], p) >= 0
    {
      QuantityOfNonNegative(n.items[0..m], p);
    }
  }

  lemma FailureNeverShort(s: Run, i: nat)
    requires NeverShort(s)
    ensures NeverShort(Apply(s, DeliverFailure(i)))
  {
    if i < |s.db.failed| {
      CompensateNeverShort(s.db.(failed := Without(s.db.failed, i)), s.db.failed[i]);
    }
  }

  lemma TimerNeverShort(s: Run, i: nat)
    requires NeverShort(s)
    ensures NeverShort(Apply(s, TimerExpires(i)))
  {
    if i < |s.db.timers| {
      CompensateNeverShort(s.db.(timers := Without(s.db.timers, i)), s.db.timers[i]);
    }
  }

  lemma {:induction false} NeverShortHolds(db0: Database, es: seq<Event>)
    requires Fresh(db0) && StocksCovered(db0) && QuantitiesAtLeast(es, 0)
    ensures NeverShort(After(db0, es))
  {
    if es != [] {
      var before, e := es[..|es| - 1], es[|es| - 1];
      NeverShortHolds(db0, before);
      var s := After(db0, before);
      match e
      case Order(u, items, c, now) => OrderNeverShort(s, u, items, c, now);
      case DeliverFailure(i) => FailureNeverShort(s, i);
      case TimerExpires(i) => TimerNeverShort(s, i);
      case Pay(_) =>
      case Charge(_, _) =>
    }
  }

  /** One line with a quantity below 0 is refused, published, and "restored". */
  lemma NegativeLineDrains(q: int)
    requires q < 0
    ensures var db0 := Database(map[1 := ProductRow(1, 0)], map[], map[], [], [], [], []);
            var es := [Order(1, [Item(1, q)], None, 0), DeliverFailure(0)];
            Fresh(db0) && StocksCovered(db0) && QuantitiesAtLeast(es, q) && !StocksCovered(After(db0, es).db)
  {
    var db0 := Database(map[1 := ProductRow(1, 0)], map[], map[], [], [], [], []);
    var items := [Item(1, q)];
    var order := Order(1, items, None, 0);
    var es := [order, DeliverFailure(0)];
    assert es[..1] == [order] && [order][..0] == [];
    assert items[0].quantity == q && !ValidItems(items);
    var s1 := Run(db0.(failed := [Notice(None, items, None, 0)]), [], {});
    assert After(db0, [order]) == s1;
    var products := RestoreFrom(db0.products, items, 0);
    assert RestoreFrom(map[1 := ProductRow(1, q)], items, 1) == map[1 := ProductRow(1, q)];
    assert db0.products[1 := ProductRow(1, q)] == map[1 := ProductRow(1, q)];
    assert products == map[1 := ProductRow(1, q)];
    assert After(db0, es) == Apply(s1, DeliverFailure(0));
    assert After(db0, es).db.products == products;
    assert 1 in products && products[1].stock < 0;
  }

  /** Stocks stay at or above 0 in every run exactly when no line may ask for less than nothing. */
  lemma StockNonNegativeExactly(bound: int)
    ensures (forall db0, es :: Fresh(db0) && StocksCovered(db0) && QuantitiesAtLeast(es, bound) ==>
               StocksCovered(After(db0, es).db))
            <==> bound >= 0
  {
    if bound >= 0 {
      forall db0, es | Fresh(db0) && StocksCovered(db0) && QuantitiesAtLeast(es, bound)
        ensures StocksCovered(After(db0, es).db)
      {
        NeverShortHolds(db0, es);
      }
    } else {
      NegativeLineDrains(bound);
    }
  }
}
