/** Stored payments over whole runs: every payment row is its order's, and the points spent are theirs. */
module PaymentBooks {
  import opened Common
  import opened Items
  import opened Entities
  import opened Shop
  import opened ShopLaws
  import opened ShopRuns
  import opened ShopLedger

  /** A payment that succeeded for the PAID order it names, of the same user, with the same amounts. */
  ghost predicate PaysItsOrder(db: Database, p: PaymentRow) {
    && 1 <= p.orderId <= |db.orders|
    && var o := db.orders[p.orderId - 1];
       && o.status == PAID && p.status == SUCCESS
       && p.userId == o.userId
       && p.totalAmount == o.totalAmount && p.discountAmount == o.discountAmount && p.finalAmount == o.finalAmount
       && p.couponUsed == o.couponUsed
  }

  /** What a user's SUCCESS payments add up to. */
  function PaidBy(payments: seq<PaymentRow>, u: int): int {
    if payments == [] then 0
    else
      var p := payments[|payments| - 1];
      PaidBy(payments[..|payments| - 1], u) + if p.userId == u && p.status == SUCCESS then p.finalAmount else 0
  }

  lemma PaidByAppend(payments: seq<PaymentRow>, p: PaymentRow, u: int)
    ensures PaidBy(payments + [p], u)
            == PaidBy(payments, u) + if p.userId == u && p.status == SUCCESS then p.finalAmount else 0
  {
    assert (payments + [p])[..|payments|] == payments;
  }

  ghost predicate PaymentsSound(db: Database) {
    && (forall k :: 0 <= k < |db.payments| ==> PaysItsOrder(db, db.payments[k]))
    && (forall u :: PaidBy(db.payments, u) == SpentBy(db.orders, u))
  }

  /** How one payment ends, and all that it changes. */
  lemma PaymentOutcomes(db: Database, id: int)
    ensures var (db', r) := ProcessPayment(db, id);
            var stored := 1 <= id <= |db.orders|;
            && (r.OrderMissing? <==> !stored)
            && (r.PayerMissing? <==> stored && db.orders[id - 1].userId !in db.users)
            && (r.AlreadyProcessed? <==> stored && db.orders[id - 1].userId in db.users
                                         && db.orders[id - 1].status == PAID)
            && (r.NotEnoughPoints? <==>
                  stored && db.orders[id - 1].userId in db.users && db.orders[id - 1].status == PENDING
                  && db.users[db.orders[id - 1].userId].points < db.orders[id - 1].finalAmount)
            && (r.PointsRefused? <==>
                  stored && db.orders[id - 1].userId in db.users && db.orders[id - 1].status == PENDING
                  && db.users[db.orders[id - 1].userId].points >= db.orders[id - 1].finalAmount
                  && db.orders[id - 1].finalAmount < 0)
            && (!r.Paid? && !r.PointsRefused? ==> db' == db)
  {
  }

  /** What a payment that goes through stores and changes. */
  lemma PaidOrder(db: Database, id: int)
    requires ProcessPayment(db, id).1.Paid?
    ensures var db' := ProcessPayment(db, id).0;
            && 1 <= id <= |db.orders|
            && var o := db.orders[id - 1];
               && o.status == PENDING && o.userId in db.users
               && db'.payments == db.payments + [PaymentRow(id, o.userId, o.totalAmount, o.discountAmount,
                                                            o.finalAmount, o.couponUsed, SUCCESS)]
               && db'.orders == db.orders[id - 1 := o.(status := PAID)]
               && db'.users == db.users[o.userId := UserRow(db.users[o.userId].points - o.finalAmount)]
               && db' == db.(payments := db'.payments, orders := db'.orders, users := db'.users)
  {
  }

  lemma PayingKeepsPayments(db: Database, id: int)
    requires PaymentsSound(db) && ProcessPayment(db, id).1.Paid?
    ensures PaymentsSound(ProcessPayment(db, id).0)
  {
    PaidOrder(db, id);
    var db' := ProcessPayment(db, id).0;
    var p := db'.payments[|db.payments|];
    forall k | 0 <= k < |db'.payments|
      ensures PaysItsOrder(db', db'.payments[k])
    {
      assert k < |db.payments| ==> PaysItsOrder(db, db.payments[k]) && db'.payments[k] == db.payments[k];
    }
    forall u
      ensures PaidBy(db'.payments, u) == SpentBy(db'.orders, u)
    {
      PaidByAppend(db.payments, p, u);
      SpentAfterPaying(db.orders, id - 1, u);
      assert PaidBy(db.payments, u) == SpentBy(db.orders, u);
    }
  }

  lemma StoringKeepsPayments(db: Database, db': Database)
    requires PaymentsSound(db) && db'.payments == db.payments
    requires |db'.orders| == |db.orders| + 1 && db'.orders[..|db.orders|] == db.orders
    requires db'.orders[|db.orders|].status == PENDING
    ensures PaymentsSound(db')
  {
    var o := db'.orders[|db.orders|];
    assert db'.orders == db.orders + [o];
    forall k | 0 <= k < |db'.payments|
      ensures PaysItsOrder(db', db'.payments[k])
    {
      assert PaysItsOrder(db, db.payments[k]);
    }
    forall u
      ensures PaidBy(db'.payments, u) == SpentBy(db'.orders, u)
    {
      SpentAppend(db.orders, o, u);
      assert PaidBy(db.payments, u) == SpentBy(db.orders, u);
    }
  }

  lemma QuietKeepsPayments(db: Database, db': Database)
    requires PaymentsSound(db) && db'.payments == db.payments && db'.orders == db.orders
    ensures PaymentsSound(db')
  {
    forall k | 0 <= k < |db'.payments|
      ensures PaysItsOrder(db', db'.payments[k])
    {
      assert PaysItsOrder(db, db.payments[k]);
    }
  }

  lemma PaymentsStep(s: Run, e: Event)
    requires PaymentsSound(s.db)
    requires e.Pay? ==> !ProcessPayment(s.db, e.orderId).1.PointsRefused?
    ensures PaymentsSound(Apply(s, e).db)
  {
    if e.Order? && CreateOrder(s.db, e.userId, e.items, e.couponId, e.now).1.OrderPlaced? {
      PlacedOrder(s.db, e.userId, e.items, e.couponId, e.now);
      StoringKeepsPayments(s.db, Apply(s, e).db);
    } else if e.Order? {
      FailedOrder(s.db, e.userId, e.items, e.couponId, e.now);
      QuietKeepsPayments(s.db, Apply(s, e).db);
    } else if e.Pay? && ProcessPayment(s.db, e.orderId).1.Paid? {
      PayingKeepsPayments(s.db, e.orderId);
    } else {
      QuietKeepsPayments(s.db, Apply(s, e).db);
    }
  }

  /** Over every run: each payment is its order's row, user and amounts alike, and none is left without one. */
  lemma {:induction false} PaymentsMatchOrders(db0: Database, es: seq<Event>)
    requires Fresh(db0)
    ensures PaymentsSound(After(db0, es).db)
  {
    if es != [] {
      var before, e := es[..|es| - 1], es[|es| - 1];
      PaymentsMatchOrders(db0, before);
      if e.Pay? {
        NothingRefusedLate(db0, before, e.orderId);
      }
      PaymentsStep(After(db0, before), e);
    }
  }

  /** In a reachable state no payment is stored and then refused its points. */
  lemma NothingRefusedLate(db0: Database, es: seq<Event>, id: int)
    requires Fresh(db0)
    ensures !ProcessPayment(After(db0, es).db, id).1.PointsRefused?
  {
    MoneyInvariantHolds(db0, es);
    assert SoundOrders(After(db0, es).db);
    PaymentOutcomes(After(db0, es).db, id);
  }

  /** Over every run: a user's points are the initial ones plus the charges minus the user's payments. */
  lemma {:induction false} PointsArePayments(db0: Database, es: seq<Event>, u: int)
    requires Fresh(db0) && u in db0.users
    ensures var db := After(db0, es).db;
            && u in db.users
            && db.users[u].points == db0.users[u].points + ChargedTo(es, u) - PaidBy(db.payments, u)
  {
    PointsLedger(db0, es, u);
    PaymentsMatchOrders(db0, es);
    assert PaidBy(After(db0, es).db.payments, u) == SpentBy(After(db0, es).db.orders, u);
  }

  /** How charging ends: a missing user first, then a negative amount; otherwise only the points change. */
  lemma ChargeOutcomes(db: Database, u: int, amount: int)
    ensures var (db', r) := ChargePoints(db, u, amount);
            && (r.UserNotFound? <==> u !in db.users)
            && (r.AmountNegative? <==> u in db.users && amount < 0)
            && db' == if u in db.users && amount >= 0
                      then db.(users := db.users[u := UserRow(db.users[u].points + amount)]) else db
  {
  }
}
