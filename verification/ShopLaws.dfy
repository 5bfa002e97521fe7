/**
 What single orders and single compensations mean: reservation in terms of quantities, exact
 acceptance of an order, and the exact effect of a failed order followed by its compensation.
 */
module ShopLaws {
  import opened Common
  import opened Items
  import opened Entities
  import opened Shop

  // ----- reservation

  /** Sum of price times quantity over the first `n` lines. */
  function TotalOf(ps: Products, items: seq<Item>, n: nat): int
    requires n <= |items| && forall i :: 0 <= i < n ==> items[i].productId in ps
  {
    if n == 0 then 0 else TotalOf(ps, items, n - 1) + ps[items[n - 1].productId].price * items[n - 1].quantity
  }

  /** The same products at the same prices, with `n` lines taken from stock. */
  ghost predicate TakenFrom(ps: Products, after: Products, items: seq<Item>, n: nat)
    requires n <= |items|
  {
    && after.Keys == ps.Keys
    && forall p :: p in ps ==>
         after[p].price == ps[p].price && after[p].stock == ps[p].stock - QuantityOf(items[..n], p)
  }

  /** Line `i` can be taken after the lines before it: its product exists and has the stock left. */
  ghost predicate Takeable(ps: Products, items: seq<Item>, i: nat)
    requires i < |items|
  {
    var p := items[i].productId;
    p in ps && ps[p].stock - QuantityOf(items[..i], p) >= items[i].quantity >= 0
  }

  ghost predicate LinesMatch(ps: Products, items: seq<Item>, n: nat, lines: seq<OrderItem>, left: seq<int>)
    requires n <= |items|
  {
    && |lines| == |left| == n
    && forall i :: 0 <= i < n ==>
         var p, q := items[i].productId, items[i].quantity;
         p in ps && lines[i] == OrderItem(p, q, ps[p].price) && left[i] == ps[p].stock - QuantityOf(items[..i + 1], p)
  }

  lemma TakeOneMore(ps: Products, cur: Products, items: seq<Item>, i: nat)
    requires i < |items| && TakenFrom(ps, cur, items, i) && items[i].productId in ps
    ensures var p := items[i].productId;
            && TakenFrom(ps, cur[p := ProductRow(cur[p].price, cur[p].stock - items[i].quantity)], items, i + 1)
            && cur[p].stock - items[i].quantity == ps[p].stock - QuantityOf(items[..i + 1], p)
  {
    assert items[..i + 1][..i] == items[..i];
  }

  lemma MatchOneMore(ps: Products, items: seq<Item>, i: nat, lines: seq<OrderItem>, left: seq<int>, stock: int)
    requires i < |items| && LinesMatch(ps, items, i, lines, left) && items[i].productId in ps
    requires stock == ps[items[i].productId].stock - QuantityOf(items[..i + 1], items[i].productId)
    ensures var p, q := items[i].productId, items[i].quantity;
            LinesMatch(ps, items, i + 1, lines + [OrderItem(p, q, ps[p].price)], left + [stock])
  {
  }

  /** Reservation stops at the first line that cannot be taken, with exactly the earlier lines taken. */
  ghost predicate ReservationMeans(ps: Products, items: seq<Item>, r: Reservation) {
    var k := TakenBy(r, items);
    && k <= |items|
    && TakenFrom(ps, r.products, items, k)
    && (forall i :: 0 <= i < k ==> Takeable(ps, items, i))
    && (!r.Reserved? ==> k < |items| && !Takeable(ps, items, k))
    && (r.Missing? ==> k < |items| && items[k].productId !in ps)
    && (r.OutOfStock? ==> (k < |items| && items[k].productId in ps
                           && ps[items[k].productId].stock - QuantityOf(items[..k], items[k].productId)
                              < items[k].quantity))
    && (r.Refused? ==> k < |items| && items[k].quantity < 0)
    && (r.Reserved? ==> LinesMatch(ps, items, |items|, r.lines, r.left) && r.total == TotalOf(ps, items, |items|))
  }

  /** Lines 0..i are taken and recorded. */
  ghost predicate Progress(ps: Products, cur: Products, items: seq<Item>, i: nat, lines: seq<OrderItem>,
                           left: seq<int>, total: int)
    requires i <= |items|
  {
    && TakenFrom(ps, cur, items, i)
    && LinesMatch(ps, items, i, lines, left)
    && (forall k :: 0 <= k < i ==> Takeable(ps, items, k))
    && total == TotalOf(ps, items, i)
  }

  lemma ProgressOneMore(ps: Products, cur: Products, items: seq<Item>, i: nat, lines: seq<OrderItem>, left: seq<int>,
                        total: int)
    requires i < |items| && Progress(ps, cur, items, i, lines, left, total)
    requires items[i].productId in cur && cur[items[i].productId].stock >= items[i].quantity >= 0
    ensures var p, q := items[i].productId, items[i].quantity;
            Progress(ps, cur[p := ProductRow(cur[p].price, cur[p].stock - q)], items, i + 1,
                     lines + [OrderItem(p, q, cur[p].price)], left + [cur[p].stock - q], total + cur[p].price * q)
  {
    TakeOneMore(ps, cur, items, i);
    assert Takeable(ps, items, i);
    MatchOneMore(ps, items, i, lines, left, cur[items[i].productId].stock - items[i].quantity);
  }

  lemma StopsHere(ps: Products, cur: Products, items: seq<Item>, i: nat, lines: seq<OrderItem>, left: seq<int>,
                  total: int)
    requires i < |items| && Progress(ps, cur, items, i, lines, left, total)
    requires var p, q := items[i].productId, items[i].quantity;
             !(p in cur && cur[p].stock >= q && q >= 0)
    ensures ReservationMeans(ps, items, ReserveFrom(cur, items, i, lines, left, total))
  {
  }

  lemma EndsHere(ps: Products, cur: Products, items: seq<Item>, lines: seq<OrderItem>, left: seq<int>, total: int)
    requires Progress(ps, cur, items, |items|, lines, left, total)
    ensures ReservationMeans(ps, items, Reserved(cur, lines, left, total))
  {
  }

  lemma {:induction false} ReserveFromMeaning(ps: Products, cur: Products, items: seq<Item>, i: nat,
                                              lines: seq<OrderItem>, left: seq<int>, total: int, r: Reservation)
    requires i <= |items| && Progress(ps, cur, items, i, lines, left, total)
    requires r == ReserveFrom(cur, items, i, lines, left, total)
    ensures ReservationMeans(ps, items, r)
    decreases |items| - i
  {
    if i == |items| {
      EndsHere(ps, cur, items, lines, left, total);
    } else {
      var p, q := items[i].productId, items[i].quantity;
      if p in cur && cur[p].stock >= q && q >= 0 {
        ProgressOneMore(ps, cur, items, i, lines, left, total);
        ReserveFromMeaning(ps, cur[p := ProductRow(cur[p].price, cur[p].stock - q)], items, i + 1,
                           lines + [OrderItem(p, q, cur[p].price)], left + [cur[p].stock - q],
                           total + cur[p].price * q, r);
      } else {
        StopsHere(ps, cur, items, i, lines, left, total);
      }
    }
  }

  lemma ReserveMeaning(ps: Products, items: seq<Item>)
    ensures ReservationMeans(ps, items, Reserve(ps, items))
  {
    assert items[..0] == [];
    ReserveFromMeaning(ps, ps, items, 0, [], [], 0, Reserve(ps, items));
  }

  // ----- exact acceptance

  /** The discount an order gets: that of a coupon that is named, found and usable. */
  function DiscountFor(cs: Coupons, couponId: Option<int>, total: int, now: int): int {
    if !NoCoupon(couponId) && couponId.value in cs && UsableCoupon(cs[couponId.value], now)
    then Discount(cs[couponId.value], total, now) else 0
  }

  /** After taking lines 0..i of its product, the stock still covers line i once more. */
  ghost predicate CoversAgain(ps: Products, items: seq<Item>, i: nat)
    requires i < |items|
  {
    var p := items[i].productId;
    p in ps && ps[p].stock - QuantityOf(items[..i + 1], p) >= items[i].quantity
  }

  ghost predicate AllTakeable(ps: Products, items: seq<Item>) {
    forall i :: 0 <= i < |items| ==> Takeable(ps, items, i)
  }

  ghost predicate AllCoverAgain(ps: Products, items: seq<Item>) {
    && (forall i :: 0 <= i < |items| ==> items[i].productId in ps)
    && (forall i :: 0 <= i < |items| ==> CoversAgain(ps, items, i))
  }

  /** Everything an order needs except that its amounts make sense. */
  ghost predicate ReachesAmounts(db: Database, userId: int, items: seq<Item>, couponId: Option<int>, now: int) {
    && ValidItems(items)
    && AllCoverAgain(db.products, items)
    && userId in db.users
    && var total := TotalOf(db.products, items, |items|);
       db.users[userId].points >= total - DiscountFor(db.coupons, couponId, total, now)
  }

  /** What an order needs, in terms of the database before it. */
  ghost predicate Acceptable(db: Database, userId: int, items: seq<Item>, couponId: Option<int>, now: int) {
    && ReachesAmounts(db, userId, items, couponId, now)
    && var total := TotalOf(db.products, items, |items|);
       total > 0 && total >= DiscountFor(db.coupons, couponId, total, now)
  }

  /** Valid lines that are covered again can all be taken. */
  lemma CoveredAreTakeable(ps: Products, items: seq<Item>)
    requires ValidItems(items) && AllCoverAgain(ps, items)
    ensures AllTakeable(ps, items)
  {
    forall i: nat | i < |items|
      ensures Takeable(ps, items, i)
    {
      assert CoversAgain(ps, items, i);
      assert items[..i + 1][..i] == items[..i];
    }
  }

  /** Reservation gets through exactly the lines that can all be taken; the second check asks for them again. */
  lemma ReservedExactly(ps: Products, items: seq<Item>)
    ensures Reserve(ps, items).Reserved? <==> AllTakeable(ps, items)
    ensures Reserve(ps, items).Reserved? ==>
              (RecheckPasses(items, Reserve(ps, items).left) <==> AllCoverAgain(ps, items))
  {
    ReserveMeaning(ps, items);
    var r := Reserve(ps, items);
    if r.Reserved? {
      forall i: nat | i < |items|
        ensures items[i].productId in ps
        ensures r.left[i] >= items[i].quantity <==> CoversAgain(ps, items, i)
      {
        assert Takeable(ps, items, i);
      }
    }
  }

  /** An order is stored exactly when it is acceptable. */
  lemma OrderAcceptedExactly(db: Database, userId: int, items: seq<Item>, couponId: Option<int>, now: int)
    ensures CreateOrder(db, userId, items, couponId, now).1.OrderPlaced? <==>
            Acceptable(db, userId, items, couponId, now)
  {
    if ValidItems(items) {
      ReserveMeaning(db.products, items);
      ReservedExactly(db.products, items);
      if AllCoverAgain(db.products, items) {
        CoveredAreTakeable(db.products, items);
      }
    }
  }

  /** An order fails for its amounts exactly when it gets that far and total or final is out of range. */
  lemma {:induction false} BadAmountExactly(db: Database, userId: int, items: seq<Item>,
                                            couponId: Option<int>, now: int)
    ensures CreateOrder(db, userId, items, couponId, now).1.BadAmount? <==>
            && ReachesAmounts(db, userId, items, couponId, now)
            && var total := TotalOf(db.products, items, |items|);
               total <= 0 || total < DiscountFor(db.coupons, couponId, total, now)
  {
    if ValidItems(items) {
      ReserveMeaning(db.products, items);
      ReservedExactly(db.products, items);
      if AllCoverAgain(db.products, items) {
        CoveredAreTakeable(db.products, items);
      }
    }
  }

  /** The second stock check refuses exactly the orders whose lines can all be taken, but not all once more. */
  lemma RecheckFailedExactly(db: Database, userId: int, items: seq<Item>, couponId: Option<int>, now: int)
    ensures CreateOrder(db, userId, items, couponId, now).1.RecheckFailed? <==>
            ValidItems(items) && AllTakeable(db.products, items) && userId in db.users
            && exists i :: 0 <= i < |items| && !CoversAgain(db.products, items, i)
  {
    if ValidItems(items) {
      ReservedExactly(db.products, items);
      forall i: nat | i < |items| && CoversAgain(db.products, items, i)
        ensures items[i].productId in db.products
      {
      }
    }
  }

  /** The remaining ways an order ends, so that database and request decide which. */
  lemma OrderOutcomes(db: Database, userId: int, items: seq<Item>, couponId: Option<int>, now: int)
    ensures var r := CreateOrder(db, userId, items, couponId, now).1;
            && (r.BadItems? <==>
                  items == [] || exists i :: 0 <= i < |items| && (items[i].productId == 0 || items[i].quantity <= 0))
            && (r.ProductMissing? <==>
                  ValidItems(items) && exists k :: 0 <= k < |items| && items[k].productId !in db.products
                                                   && forall i :: 0 <= i < k ==> Takeable(db.products, items, i))
            && !r.NegativeQuantity?
            && (r.UserMissing? <==>
                  ValidItems(items) && AllTakeable(db.products, items) && userId !in db.users)
            && (r.PointsShort? <==>
                  ValidItems(items) && AllCoverAgain(db.products, items) && userId in db.users
                  && var total := TotalOf(db.products, items, |items|);
                     db.users[userId].points < total - DiscountFor(db.coupons, couponId, total, now))
  {
    if ValidItems(items) {
      ReserveMeaning(db.products, items);
      ReservedExactly(db.products, items);
      var r := Reserve(db.products, items);
      var k := TakenBy(r, items);
      MissingExactly(db.products, items, r);
      if AllCoverAgain(db.products, items) {
        CoveredAreTakeable(db.products, items);
      }
    }
  }

  lemma MissingExactly(ps: Products, items: seq<Item>, r: Reservation)
    requires ValidItems(items) && ReservationMeans(ps, items, r)
    ensures r.Missing? <==>
            exists k :: 0 <= k < |items| && items[k].productId !in ps
                        && forall i :: 0 <= i < k ==> Takeable(ps, items, i)
    ensures !r.Refused?
  {
    var k := TakenBy(r, items);
    if exists j :: 0 <= j < |items| && items[j].productId !in ps && forall i :: 0 <= i < j ==> Takeable(ps, items, i) {
      var j :| 0 <= j < |items| && items[j].productId !in ps && forall i :: 0 <= i < j ==> Takeable(ps, items, i);
      assert !Takeable(ps, items, j);
      assert k == j;
    }
  }

  /** What a placed order does to its coupon, and what its row says about that. */
  lemma PlacedUse(db: Database, userId: int, items: seq<Item>, couponId: Option<int>, now: int)
    requires CreateOrder(db, userId, items, couponId, now).1.OrderPlaced?
    ensures var db' := CreateOrder(db, userId, items, couponId, now).0;
            var names := couponId.Some? && couponId.value != 0 && couponId.value in db.coupons
                         && !db.coupons[couponId.value].isUsed && now <= db.coupons[couponId.value].expiryDate;
            && |db'.orders| == |db.orders| + 1
            && (db'.orders[|db.orders|].couponUsed <==> names)
            && db'.coupons == if names
                              then db.coupons[couponId.value := db.coupons[couponId.value].(isUsed := true)]
                              else db.coupons
  {
  }

  /** What a placed order stores and changes. */
  lemma PlacedOrder(db: Database, userId: int, items: seq<Item>, couponId: Option<int>, now: int)
    requires CreateOrder(db, userId, items, couponId, now).1.OrderPlaced?
    ensures var db' := CreateOrder(db, userId, items, couponId, now).0;
            && Acceptable(db, userId, items, couponId, now)
            && |db'.orders| == |db.orders| + 1 && db'.orders[..|db.orders|] == db.orders
            && (var o, total := db'.orders[|db.orders|], TotalOf(db.products, items, |items|);
                && o.userId == userId && o.status == PENDING && o.couponId == couponId
                && ItemsOf(o.items) == items
                && (forall i :: 0 <= i < |items| ==> o.items[i].price == db.products[items[i].productId].price)
                && o.totalAmount == total > 0
                && o.discountAmount == DiscountFor(db.coupons, couponId, total, now)
                && o.finalAmount + o.discountAmount == o.totalAmount && o.finalAmount >= 0)
            && (var names := couponId.Some? && couponId.value != 0 && couponId.value in db.coupons
                             && !db.coupons[couponId.value].isUsed && now <= db.coupons[couponId.value].expiryDate;
                && (db'.orders[|db.orders|].couponUsed <==> names)
                && db'.coupons == if names
                                  then db.coupons[couponId.value := db.coupons[couponId.value].(isUsed := true)]
                                  else db.coupons)
            && CreateOrder(db, userId, items, couponId, now).1 == OrderPlaced(|db.orders| + 1)
            && TakenFrom(db.products, db'.products, items, |items|)
            && db'.timers == db.timers + [Notice(Some(|db.orders| + 1), items, couponId, |items|)]
            && db' == db.(products := db'.products, coupons := db'.coupons, orders := db'.orders, timers := db'.timers)
  {
    PlacedUse(db, userId, items, couponId, now);
    OrderAcceptedExactly(db, userId, items, couponId, now);
    ReserveMeaning(db.products, items);
    var r := Reserve(db.products, items);
    assert ItemsOf(r.lines) == items;
  }

  // ----- compensation

  /** Restoring puts back every line before the first missing product, taken from stock or not. */
  lemma {:induction false} RestoreFromMeaning(ps: Products, items: seq<Item>, i: nat)
    requires i <= |items|
    ensures var after := RestoreFrom(ps, items, i);
            && after.Keys == ps.Keys
            && forall p :: p in ps ==>
                 after[p].price == ps[p].price
                 && after[p].stock == ps[p].stock + QuantityOf(items[i..StopFrom(ps.Keys, items, i)], p)
    decreases |items| - i
  {
    var m := StopFrom(ps.Keys, items, i);
    if i < |items| && items[i].productId in ps {
      var p0, q := items[i].productId, items[i].quantity;
      var ps' := ps[p0 := ProductRow(ps[p0].price, ps[p0].stock + q)];
      assert ps'.Keys == ps.Keys;
      RestoreFromMeaning(ps', items, i + 1);
      forall p | p in ps
        ensures QuantityOf(items[i..m], p) == (if p == p0 then q else 0) + QuantityOf(items[i + 1..m], p)
      {
        QuantityOfSplit(items, i, i + 1, m, p);
        assert items[i..i + 1] == [items[i]];
        assert [items[i]][..0] == [];
        assert QuantityOf([items[i]], p) == if p == p0 then q else 0;
      }
    } else {
      assert items[i..m] == [];
    }
  }

  /** Restoring undoes a complete reservation. */
  lemma RestoreUndoesReserve(ps: Products, taken: Products, items: seq<Item>)
    requires TakenFrom(ps, taken, items, |items|)
    requires forall i :: 0 <= i < |items| ==> items[i].productId in ps
    ensures RestoreStop(ps.Keys, items) == |items|
    ensures RestoreFrom(taken, items, 0) == ps
  {
    StopAfter(ps.Keys, items, 0, |items|);
    RestoreFromMeaning(taken, items, 0);
    assert items[..|items|] == items && items[0..|items|] == items;
    var restored := RestoreFrom(taken, items, 0);
    forall p | p in ps
      ensures restored[p] == ps[p]
    {
      assert taken[p].stock == ps[p].stock - QuantityOf(items[..|items|], p);
    }
  }

  /** The lines of an event that the restore loop gives back without their having been taken. */
  function OverRestored(keys: set<int>, e: Notice, p: int): int
    requires e.reserved <= RestoreStop(keys, e.items)
  {
    QuantityOf(e.items[e.reserved..RestoreStop(keys, e.items)], p)
  }

  /** Compensating an event gives back what it held, plus its lines beyond, up to a missing product. */
  lemma CompensateStock(db: Database, e: Notice)
    requires e.reserved <= RestoreStop(db.products.Keys, e.items)
    ensures var after := Compensate(db, e).products;
            && after.Keys == db.products.Keys
            && forall p :: p in db.products ==>
                 after[p].price == db.products[p].price
                 && after[p].stock == db.products[p].stock + QuantityOf(e.items[..e.reserved], p)
                                      + OverRestored(db.products.Keys, e, p)
  {
    RestoreFromMeaning(db.products, e.items, 0);
    forall p
      ensures QuantityOf(e.items[0..RestoreStop(db.products.Keys, e.items)], p) ==
              QuantityOf(e.items[..e.reserved], p) + OverRestored(db.products.Keys, e, p)
    {
      QuantityOfSplit(e.items, 0, e.reserved, RestoreStop(db.products.Keys, e.items), p);
      assert e.items[0..e.reserved] == e.items[..e.reserved];
    }
  }

  /** A failed order: its event, and what it took from stock. */
  lemma FailedOrder(db: Database, userId: int, items: seq<Item>, couponId: Option<int>, now: int)
    requires !CreateOrder(db, userId, items, couponId, now).1.OrderPlaced?
    ensures var (db', why) := CreateOrder(db, userId, items, couponId, now);
            var k := if ValidItems(items) then TakenBy(Reserve(db.products, items), items) else 0;
            && db'.failed == db.failed + [Notice(None, items, couponId, k)]
            && k <= RestoreStop(db.products.Keys, items)
            && TakenFrom(db.products, db'.products, items, k)
            && (why.ProductMissing? ==> k == RestoreStop(db.products.Keys, items) < |items|)
            && (why.StockShort? ==> k < RestoreStop(db.products.Keys, items))
            && (!why.BadItems? && !why.ProductMissing? && !why.StockShort? ==>
                  k == RestoreStop(db.products.Keys, items) == |items|)
            && db' == db.(products := db'.products, coupons := db'.coupons, failed := db'.failed)
            && (why.BadItems? <==> !ValidItems(items))
  {
    ReserveMeaning(db.products, items);
    assert items[..0] == [];
    var k := if ValidItems(items) then TakenBy(Reserve(db.products, items), items) else 0;
    if ValidItems(items) {
      forall j | 0 <= j < k
        ensures items[j].productId in db.products.Keys
      {
        assert Takeable(db.products, items, j);
      }
      StopAfter(db.products.Keys, items, 0, k);
    }
  }

  /** The restore loop gets past lines whose products exist. */
  lemma {:induction false} StopAfter(keys: set<int>, items: seq<Item>, i: nat, k: nat)
    requires i <= k <= |items| && forall j :: i <= j < k ==> items[j].productId in keys
    ensures StopFrom(keys, items, i) >= k
    ensures k < |items| && items[k].productId in keys ==> StopFrom(keys, items, i) > k
    decreases k - i
  {
    if i < k {
      StopAfter(keys, items, i + 1, k);
    }
  }

  /** A failed order and then its compensation, nothing in between. */
  function FailAndCompensate(db: Database, userId: int, items: seq<Item>, couponId: Option<int>, now: int): Database
    requires !CreateOrder(db, userId, items, couponId, now).1.OrderPlaced?
  {
    var db' := CreateOrder(db, userId, items, couponId, now).0;
    if |db'.failed| > 0 then CompensateFailed(db', |db'.failed| - 1) else db'
  }

  /**
   The net stock change of a failed order with its compensation: the lines from where the
   reservation stopped up to where the restore loop stops, for any list with duplicates.
   */
  lemma CompensationFormula(db: Database, userId: int, items: seq<Item>, couponId: Option<int>, now: int)
    requires !CreateOrder(db, userId, items, couponId, now).1.OrderPlaced?
    ensures var after := FailAndCompensate(db, userId, items, couponId, now);
            var k := if ValidItems(items) then TakenBy(Reserve(db.products, items), items) else 0;
            var m := RestoreStop(db.products.Keys, items);
            && k <= m
            && after.products.Keys == db.products.Keys
            && (forall p :: p in db.products ==>
                  after.products[p].price == db.products[p].price
                  && after.products[p].stock == db.products[p].stock + QuantityOf(items[k..m], p))
            && after.failed == db.failed
  {
    FailedOrder(db, userId, items, couponId, now);
    var db' := CreateOrder(db, userId, items, couponId, now).0;
    var i := |db.failed|;
    var e := db'.failed[i];
    var mid := db'.(failed := Without(db'.failed, i));
    assert Without(db'.failed, i) == db.failed;
    CompensateStock(mid, e);
  }

  /** The first line that cannot be taken is one whose product exists without enough stock left. */
  ghost predicate ShortAt(ps: Products, items: seq<Item>, k: nat) {
    && k < |items|
    && (forall i :: 0 <= i < k ==> Takeable(ps, items, i))
    && items[k].productId in ps
    && ps[items[k].productId].stock - QuantityOf(items[..k], items[k].productId) < items[k].quantity
  }

  ghost predicate RunsShort(ps: Products, items: seq<Item>) {
    exists k: nat :: ShortAt(ps, items, k)
  }

  /** An order of valid lines fails for stock exactly when the stored stocks run short on its lines. */
  lemma ShortExactly(db: Database, userId: int, items: seq<Item>, couponId: Option<int>, now: int)
    requires ValidItems(items)
    ensures CreateOrder(db, userId, items, couponId, now).1.StockShort? <==> RunsShort(db.products, items)
  {
    ReserveMeaning(db.products, items);
    var r := Reserve(db.products, items);
    var k := TakenBy(r, items);
    if r.OutOfStock? {
      assert ShortAt(db.products, items, k);
    }
    if RunsShort(db.products, items) {
      var j: nat :| ShortAt(db.products, items, j);
      assert !Takeable(db.products, items, j);
      assert k == j;
    }
  }

  /** For valid lines compensation is exact, unless the stored stocks run short on them. */
  lemma CompensationExactUnlessShort(db: Database, userId: int, items: seq<Item>, couponId: Option<int>, now: int)
    requires ValidItems(items)
    requires !CreateOrder(db, userId, items, couponId, now).1.OrderPlaced?
    ensures FailAndCompensate(db, userId, items, couponId, now).products == db.products
            <==> !RunsShort(db.products, items)
  {
    ShortExactly(db, userId, items, couponId, now);
    CompensationFormula(db, userId, items, couponId, now);
    FailedOrder(db, userId, items, couponId, now);
    var k := TakenBy(Reserve(db.products, items), items);
    var m := RestoreStop(db.products.Keys, items);
    var after := FailAndCompensate(db, userId, items, couponId, now);
    if k == m {
      assert items[k..m] == [];
      assert forall p :: p in db.products ==> after.products[p] == db.products[p];
    } else {
      var extra := items[k..m];
      assert extra[0] == items[k];
      QuantityOfPositive(extra, 0);
      var p := items[k].productId;
      assert after.products[p].stock > db.products[p].stock;
    }
  }

  /** For lines refused at the first check, everything restored is a gift or a loss. */
  lemma RefusedLinesAreStillRestored(db: Database, userId: int, items: seq<Item>, couponId: Option<int>, now: int)
    requires !ValidItems(items)
    ensures FailAndCompensate(db, userId, items, couponId, now).products == db.products
            <==> forall p :: p in db.products ==> QuantityOf(items[..RestoreStop(db.products.Keys, items)], p) == 0
  {
    CompensationFormula(db, userId, items, couponId, now);
    var m := RestoreStop(db.products.Keys, items);
    assert items[0..m] == items[..m];
    var after := FailAndCompensate(db, userId, items, couponId, now);
    if forall p :: p in db.products ==> QuantityOf(items[..m], p) == 0 {
      assert forall p :: p in db.products ==> after.products[p] == db.products[p];
    }
  }

  /** A failed order leaves a coupon as it was, or has used up an unused one. */
  lemma CouponsAfterFailure(db: Database, userId: int, items: seq<Item>, couponId: Option<int>, now: int)
    requires !CreateOrder(db, userId, items, couponId, now).1.OrderPlaced?
    ensures var cs := CreateOrder(db, userId, items, couponId, now).0.coupons;
            cs == db.coupons
            || (couponId.Some? && couponId.value in db.coupons && !db.coupons[couponId.value].isUsed
                && cs == db.coupons[couponId.value := db.coupons[couponId.value].(isUsed := true)])
  {
  }

  /**
   The coupon after a failed order and its compensation: as before exactly when it was unused
   before or the handler stopped at a missing product; a used one is made usable again.
   */
  lemma CouponAfterCompensation(db: Database, userId: int, items: seq<Item>, couponId: Option<int>, now: int)
    requires !CreateOrder(db, userId, items, couponId, now).1.OrderPlaced?
    requires !NoCoupon(couponId) && couponId.value in db.coupons
    ensures var after, c := FailAndCompensate(db, userId, items, couponId, now), couponId.value;
            && after.coupons.Keys == db.coupons.Keys
            && (forall x :: x in db.coupons && x != c ==> after.coupons[x] == db.coupons[x])
            && (after.coupons[c] == db.coupons[c]
                <==> !db.coupons[c].isUsed || RestoreStop(db.products.Keys, items) < |items|)
            && (RestoreStop(db.products.Keys, items) == |items| ==> !after.coupons[c].isUsed)
  {
    FailedOrder(db, userId, items, couponId, now);
    CouponsAfterFailure(db, userId, items, couponId, now);
    var db' := CreateOrder(db, userId, items, couponId, now).0;
    assert db'.failed[|db.failed|].items == items && db'.failed[|db.failed|].couponId == couponId;
    assert db'.products.Keys == db.products.Keys;
  }

  // ----- single cases

  lemma OneLine(p: int, q: int)
    ensures var items := [Item(p, q)];
            items[..0] == [] && items[0..1] == items && QuantityOf(items, p) == q
            && forall x :: x != p ==> QuantityOf(items, x) == 0
  {
    assert [Item(p, q)][..0] == [];
  }

  /** One line for more than there is: refused, and then the shop has that much more than before. */
  lemma ShortageGivesStock(db: Database, userId: int, p: int, q: int, couponId: Option<int>, now: int)
    requires p in db.products && p != 0 && q > 0 && db.products[p].stock < q
    ensures var items := [Item(p, q)];
            && CreateOrder(db, userId, items, couponId, now).1.StockShort?
            && var after := FailAndCompensate(db, userId, items, couponId, now);
               p in after.products && after.products[p].stock == db.products[p].stock + q
  {
    var items := [Item(p, q)];
    OneLine(p, q);
    ReserveMeaning(db.products, items);
    assert ShortAt(db.products, items, 0);
    ShortExactly(db, userId, items, couponId, now);
    CompensationFormula(db, userId, items, couponId, now);
    assert TakenBy(Reserve(db.products, items), items) == 0;
    LineFound(db.products.Keys, items);
  }

  lemma LineFound(keys: set<int>, items: seq<Item>)
    requires |items| == 1 && items[0].productId in keys
    ensures RestoreStop(keys, items) == 1
  {
    StopAfter(keys, items, 0, 1);
  }

  /** One line that the stock covers, but not twice (2 of 3, say): refused by the second check. */
  lemma CoveredLineRefused(db: Database, userId: int, p: int, q: int, couponId: Option<int>, now: int)
    requires p in db.products && p != 0 && 0 < q <= db.products[p].stock < 2 * q && userId in db.users
    ensures CreateOrder(db, userId, [Item(p, q)], couponId, now).1.RecheckFailed?
  {
    var items := [Item(p, q)];
    OneLine(p, q);
    assert items[..1] == items;
    assert Takeable(db.products, items, 0);
    assert !CoversAgain(db.products, items, 0);
    RecheckFailedExactly(db, userId, items, couponId, now);
  }

  /** An order without lines names a used coupon: refused, and then the coupon is usable again. */
  lemma EmptyOrderFreesCoupon(db: Database, userId: int, c: int, now: int)
    requires c != 0 && c in db.coupons && db.coupons[c].isUsed
    ensures CreateOrder(db, userId, [], Some(c), now).1.BadItems?
    ensures var after := FailAndCompensate(db, userId, [], Some(c), now);
            c in after.coupons && after.coupons[c] == db.coupons[c].(isUsed := false)
  {
    CouponAfterCompensation(db, userId, [], Some(c), now);
    FailedOrder(db, userId, [], Some(c), now);
    CouponsAfterFailure(db, userId, [], Some(c), now);
  }
}
