/** Points and payments over whole runs of the shop. */
module ShopLedger {
  import opened Common
  import opened Items
  import opened Entities
  import opened Shop
  import opened ShopLaws
  import opened ShopRuns

  /** What a user was charged in a run: the amounts that are not refused. */
  function ChargedTo(es: seq<Event>, u: int): int {
    if es == [] then 0
    else
      var e := es[|es| - 1];
      ChargedTo(es[..|es| - 1], u) + if e.Charge? && e.user == u && e.amount >= 0 then e.amount else 0
  }

  /** What a user's PAID orders cost. */
  function SpentBy(orders: seq<OrderRow>, u: int): int {
    if orders == [] then 0
    else
      var o := orders[|orders| - 1];
      SpentBy(orders[..|orders| - 1], u) + if o.userId == u && o.status == PAID then o.finalAmount else 0
  }

  /** How many SUCCESS payments an order has. */
  function PaymentsOf(payments: seq<PaymentRow>, id: int): nat {
    if payments == [] then 0
    else
      var p := payments[|payments| - 1];
      PaymentsOf(payments[..|payments| - 1], id) + if p.orderId == id && p.status == SUCCESS then 1 else 0
  }

  lemma SpentAppend(orders: seq<OrderRow>, o: OrderRow, u: int)
    ensures SpentBy(orders + [o], u)
            == SpentBy(orders, u) + if o.userId == u && o.status == PAID then o.finalAmount else 0
  {
    assert (orders + [o])[..|orders|] == orders;
  }

  lemma PaymentsAppend(payments: seq<PaymentRow>, p: PaymentRow, id: int)
    ensures PaymentsOf(payments + [p], id)
            == PaymentsOf(payments, id) + if p.orderId == id && p.status == SUCCESS then 1 else 0
  {
    assert (payments + [p])[..|payments|] == payments;
  }

  lemma {:induction false} SpentAfterPaying(orders: seq<OrderRow>, i: nat, u: int)
    requires i < |orders| && orders[i].status == PENDING
    ensures SpentBy(orders[i := orders[i].(status := PAID)], u) ==
            SpentBy(orders, u) + if orders[i].userId == u then orders[i].finalAmount else 0
  {
    var n := |orders| - 1;
    var paid := orders[i := orders[i].(status := PAID)];
    if i == n {
      assert paid[..n] == orders[..n];
    } else {
      SpentAfterPaying(orders[..n], i, u);
      assert paid[..n] == orders[..n][i := orders[..n][i].(status := PAID)];
    }
  }

  ghost predicate SoundOrders(db: Database) {
    forall i :: 0 <= i < |db.orders| ==>
      var o := db.orders[i];
      && o.userId in db.users
      && o.totalAmount > 0 && o.finalAmount >= 0
      && o.finalAmount + o.discountAmount == o.totalAmount
  }

  ghost predicate PointsExplained(db0: Database, es: seq<Event>, db: Database) {
    && db.users.Keys == db0.users.Keys
    && forall u :: u in db0.users ==>
         db.users[u].points == db0.users[u].points + ChargedTo(es, u) - SpentBy(db.orders, u)
  }

  ghost predicate PointsCovered(db: Database) {
    forall u :: u in db.users ==> db.users[u].points >= 0
  }

  function PaidCount(orders: seq<OrderRow>, id: int): nat {
    if 1 <= id <= |orders| && orders[id - 1].status == PAID then 1 else 0
  }

  ghost predicate PaidOnce(db: Database) {
    forall id :: PaymentsOf(db.payments, id) == PaidCount(db.orders, id)
  }

  ghost predicate MoneyInvariant(db0: Database, es: seq<Event>, db: Database) {
    && SoundOrders(db)
    && PointsExplained(db0, es, db)
    && (PointsCovered(db0) ==> PointsCovered(db))
    && PaidOnce(db)
  }

  lemma QuietMoney(db0: Database, es: seq<Event>, e: Event, db: Database)
    requires MoneyInvariant(db0, es, db) && !e.Charge?
    ensures MoneyInvariant(db0, es + [e], db)
  {
    assert (es + [e])[..|es|] == es;
  }

  lemma StoringKeepsMoney(db0: Database, es: seq<Event>, db: Database, db': Database, o: OrderRow)
    requires MoneyInvariant(db0, es, db)
    requires db'.orders == db.orders + [o] && db'.users == db.users && db'.payments == db.payments
    requires o.status == PENDING && o.userId in db.users
    requires o.totalAmount > 0 && o.finalAmount >= 0 && o.finalAmount + o.discountAmount == o.totalAmount
    ensures MoneyInvariant(db0, es, db')
  {
    forall u
      ensures SpentBy(db'.orders, u) == SpentBy(db.orders, u)
    {
      SpentAppend(db.orders, o, u);
    }
    assert forall id :: PaymentsOf(db.payments, id) == PaidCount(db.orders, id) == PaidCount(db'.orders, id);
  }

  lemma OrderKeepsMoney(db0: Database, es: seq<Event>, s: Run, e: Event)
    requires MoneyInvariant(db0, es, s.db) && e.Order?
    ensures MoneyInvariant(db0, es + [e], Apply(s, e).db)
  {
    var db' := Apply(s, e).db;
    if CreateOrder(s.db, e.userId, e.items, e.couponId, e.now).1.OrderPlaced? {
      PlacedOrder(s.db, e.userId, e.items, e.couponId, e.now);
      StoringKeepsMoney(db0, es, s.db, db', db'.orders[|s.db.orders|]);
    } else {
      FailedOrder(s.db, e.userId, e.items, e.couponId, e.now);
    }
    QuietMoney(db0, es, e, db');
  }

  lemma CompensationKeepsMoney(db0: Database, es: seq<Event>, s: Run, e: Event)
    requires MoneyInvariant(db0, es, s.db) && (e.DeliverFailure? || e.TimerExpires?)
    ensures MoneyInvariant(db0, es + [e], Apply(s, e).db)
  {
    var db' := Apply(s, e).db;
    assert (es + [e])[..|es|] == es;
    assert db'.users == s.db.users && db'.orders == s.db.orders && db'.payments == s.db.payments;
  }

  lemma ChargeKeepsMoney(db0: Database, es: seq<Event>, s: Run, e: Event)
    requires MoneyInvariant(db0, es, s.db) && e.Charge?
    ensures MoneyInvariant(db0, es + [e], Apply(s, e).db)
  {
    var db' := Apply(s, e).db;
    assert (es + [e])[..|es|] == es;
    assert db'.orders == s.db.orders && db'.payments == s.db.payments;
  }

  /** What a successful payment changes. */
  ghost predicate PaymentOf(db: Database, db': Database, i: nat) {
    && i < |db.orders| && db.orders[i].status == PENDING && db.orders[i].userId in db.users
    && db.users[db.orders[i].userId].points >= db.orders[i].finalAmount
    && db'.orders == db.orders[i := db.orders[i].(status := PAID)]
    && (var u := db.orders[i].userId;
        db'.users == db.users[u := UserRow(db.users[u].points - db.orders[i].finalAmount)])
    && |db'.payments| == |db.payments| + 1 && db'.payments[..|db.payments|] == db.payments
    && db'.payments[|db.payments|].orderId == i + 1 && db'.payments[|db.payments|].status == SUCCESS
  }

  lemma PayingOneUser(db0: Database, es: seq<Event>, db: Database, db': Database, i: nat, u: int)
    requires PaymentOf(db, db', i) && u in db.users && u in db0.users
    requires db.users[u].points == db0.users[u].points + ChargedTo(es, u) - SpentBy(db.orders, u)
    ensures u in db'.users && db'.users[u].points == db0.users[u].points + ChargedTo(es, u) - SpentBy(db'.orders, u)
    ensures db.users[u].points >= 0 ==> db'.users[u].points >= 0
  {
    SpentAfterPaying(db.orders, i, u);
  }

  lemma PayingIsOnce(db: Database, db': Database, i: nat)
    requires PaymentOf(db, db', i) && PaidOnce(db)
    ensures PaidOnce(db')
  {
    var p := db'.payments[|db.payments|];
    assert db'.payments == db.payments + [p];
    forall id
      ensures PaymentsOf(db'.payments, id) == PaidCount(db'.orders, id)
    {
      PaymentsAppend(db.payments, p, id);
      assert PaymentsOf(db.payments, id) == PaidCount(db.orders, id);
    }
  }

  lemma PayingKeepsMoney(db0: Database, es: seq<Event>, db: Database, db': Database, i: nat)
    requires MoneyInvariant(db0, es, db) && PaymentOf(db, db', i)
    ensures MoneyInvariant(db0, es, db')
  {
    PayingIsOnce(db, db', i);
    forall u | u in db0.users
      ensures db'.users[u].points == db0.users[u].points + ChargedTo(es, u) - SpentBy(db'.orders, u)
      ensures db.users[u].points >= 0 ==> db'.users[u].points >= 0
    {
      PayingOneUser(db0, es, db, db', i, u);
    }
  }

  lemma PayKeepsMoney(db0: Database, es: seq<Event>, s: Run, e: Event)
    requires MoneyInvariant(db0, es, s.db) && e.Pay?
    ensures MoneyInvariant(db0, es + [e], Apply(s, e).db)
  {
    var db' := ProcessPayment(s.db, e.orderId).0;
    if ProcessPayment(s.db, e.orderId).1.Paid? {
      PayingKeepsMoney(db0, es, s.db, db', e.orderId - 1);
    } else {
      assert SoundOrders(s.db);
      assert db' == s.db;
    }
    QuietMoney(db0, es, e, db');
  }

  lemma {:induction false} MoneyInvariantHolds(db0: Database, es: seq<Event>)
    requires Fresh(db0)
    ensures MoneyInvariant(db0, es, After(db0, es).db)
  {
    if es != [] {
      var before, e := es[..|es| - 1], es[|es| - 1];
      MoneyInvariantHolds(db0, before);
      var s := After(db0, before);
      assert es == before + [e];
      match e
      case Order(_, _, _, _) => OrderKeepsMoney(db0, before, s, e);
      case DeliverFailure(_) => CompensationKeepsMoney(db0, before, s, e);
      case TimerExpires(_) => CompensationKeepsMoney(db0, before, s, e);
      case Pay(_) => PayKeepsMoney(db0, before, s, e);
      case Charge(_, _) => ChargeKeepsMoney(db0, before, s, e);
    }
  }

  /**
   The ledger of every user over every run: points are the initial points plus the charges
   minus the user's PAID orders, and never negative when they did not start so.
   */
  lemma PointsLedger(db0: Database, es: seq<Event>, u: int)
    requires Fresh(db0) && u in db0.users
    ensures var db := After(db0, es).db;
            && u in db.users
            && db.users[u].points == db0.users[u].points + ChargedTo(es, u) - SpentBy(db.orders, u)
            && (PointsCovered(db0) ==> db.users[u].points >= 0)
  {
    MoneyInvariantHolds(db0, es);
  }

  /** In every reachable state an order has one SUCCESS payment if it is PAID and none otherwise. */
  lemma {:induction false} PaymentExactlyWhenPaid(db0: Database, es: seq<Event>, id: int)
    requires Fresh(db0)
    ensures var db := After(db0, es).db;
            PaymentsOf(db.payments, id) == if 1 <= id <= |db.orders| && db.orders[id - 1].status == PAID then 1 else 0
  {
    MoneyInvariantHolds(db0, es);
    assert PaymentsOf(After(db0, es).db.payments, id) == PaidCount(After(db0, es).db.orders, id);
  }

  /**
   All or nothing without a rollback: in every reachable state a payment succeeds exactly when
   the validation passes, and otherwise it changes nothing.
   */
  lemma {:induction false} PaymentAllOrNothing(db0: Database, es: seq<Event>, id: int)
    requires Fresh(db0)
    ensures var db := After(db0, es).db;
            var (db', r) := ProcessPayment(db, id);
            && (r.Paid? <==> 1 <= id <= |db.orders| && db.orders[id - 1].status == PENDING
                             && db.orders[id - 1].userId in db.users
                             && db.users[db.orders[id - 1].userId].points >= db.orders[id - 1].finalAmount)
            && (!r.Paid? ==> db' == db)
  {
    MoneyInvariantHolds(db0, es);
  }

  /** The same row, except that PENDING may have become PAID. */
  predicate Advanced(o: OrderRow, o': OrderRow) {
    o' == o || (o.status == PENDING && o' == o.(status := PAID))
  }

  lemma OneStepAdvances(s: Run, e: Event, i: nat)
    requires i < |s.db.orders|
    ensures i < |Apply(s, e).db.orders| && Advanced(s.db.orders[i], Apply(s, e).db.orders[i])
  {
    if e.Order? {
      var db' := Apply(s, e).db;
      if CreateOrder(s.db, e.userId, e.items, e.couponId, e.now).1.OrderPlaced? {
        PlacedOrder(s.db, e.userId, e.items, e.couponId, e.now);
        assert db'.orders[i] == db'.orders[..|s.db.orders|][i];
      } else {
        FailedOrder(s.db, e.userId, e.items, e.couponId, e.now);
      }
    }
  }

  /** From any point of a run to its end, an order's row only moves from PENDING to PAID. */
  lemma {:induction false} OrdersOnlyAdvance(db0: Database, es: seq<Event>, k: nat, i: nat)
    requires k <= |es| && i < |After(db0, es[..k]).db.orders|
    ensures i < |After(db0, es).db.orders|
    ensures Advanced(After(db0, es[..k]).db.orders[i], After(db0, es).db.orders[i])
  {
    if k == |es| {
      assert es[..k] == es;
    } else {
      var before := es[..|es| - 1];
      assert before[..k] == es[..k];
      OrdersOnlyAdvance(db0, before, k, i);
      OneStepAdvances(After(db0, before), es[|es| - 1], i);
    }
  }
}
