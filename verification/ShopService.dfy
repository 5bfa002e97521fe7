/**
 The use cases and handlers as the source runs them: load an entity object, change it in
 place, save it back, step after step. Every method is tied to its function in module Shop.
 */
module ShopService {
  import opened Common
  import opened Items
  import opened Entities
  import opened Shop
  import opened SortedSets
  import opened RedisStore
  import opened TopSellers

  /** The repositories' tables, and the events that were published. */
  class Tables {
    var products: Products
    var coupons: Coupons
    var users: Users
    var orders: seq<OrderRow>
    var payments: seq<PaymentRow>
    var timers: seq<Notice>
    var failed: seq<Notice>

    constructor (products: Products, coupons: Coupons, users: Users)
      ensures State() == Database(products, coupons, users, [], [], [], [])
    {
      this.products, this.coupons, this.users := products, coupons, users;
      orders, payments, timers, failed := [], [], [], [];
    }

    ghost function State(): Database
      reads this
    {
      Database(products, coupons, users, orders, payments, timers, failed)
    }

    method FindProduct(id: int) returns (p: Product?)
      ensures p == null <==> id !in products
      ensures p != null ==> fresh(p) && p.id == id && p.Row() == products[id]
    {
      if id !in products {
        return null;
      }
      p := new Product(id, products[id]);
    }

    method SaveProduct(p: Product)
      modifies this`products
      ensures products == old(products)[p.id := p.Row()]
    {
      products := products[p.id := ProductRow(p.price, p.stock)];
    }

    method FindCoupon(id: int) returns (c: Coupon?)
      ensures c == null <==> id !in coupons
      ensures c != null ==> fresh(c) && c.id == id && c.Row() == coupons[id]
    {
      if id !in coupons {
        return null;
      }
      c := new Coupon(id, coupons[id]);
    }

    method SaveCoupon(c: Coupon)
      modifies this`coupons
      ensures coupons == old(coupons)[c.id := c.Row()]
    {
      coupons := coupons[c.id := c.fixedPart.(isUsed := c.isUsed)];
    }

    method FindUser(id: int) returns (u: User?)
      ensures u == null <==> id !in users
      ensures u != null ==> fresh(u) && u.id == id && u.Row() == users[id]
    {
      if id !in users {
        return null;
      }
      u := new User(id, users[id]);
    }

    method SaveUser(u: User)
      modifies this`users
      ensures users == old(users)[u.id := u.Row()]
    {
      users := users[u.id := UserRow(u.points)];
    }

    method FindOrder(id: int) returns (o: Order?)
      ensures o == null <==> !(1 <= id <= |orders|)
      ensures o != null ==> fresh(o) && o.id == id && o.Row() == orders[id - 1]
    {
      if !(1 <= id <= |orders|) {
        return null;
      }
      o := new Order(id, orders[id - 1]);
    }

    method SaveOrder(o: Order)
      requires 1 <= o.id <= |orders|
      modifies this`orders
      ensures orders == old(orders)[o.id - 1 := o.Row()]
    {
      orders := orders[o.id - 1 := o.row.(status := o.status)];
    }
  }

  // ----- services

  /** Stock of products. */
  class ProductsService {
    const db: Tables

    constructor (db: Tables)
      ensures this.db == db
    {
      this.db := db;
    }

    /** Takes line after line from stock; what was taken before a failure stays taken. */
    method ValidateAndReserveProducts(items: seq<Item>)
      returns (end: Reservation, objects: seq<Product>)
      modifies db`products
      ensures end == Reserve(old(db.products), items) && db.products == end.products
      ensures end.Reserved? ==> |objects| == |items| == |end.left| && fresh(objects)
      ensures end.Reserved? ==> forall i :: 0 <= i < |objects| ==> objects[i].stock == end.left[i]
    {
      var orderItems: seq<OrderItem>, totalAmount, left := [], 0, [];
      objects := [];
      for i := 0 to |items|
        invariant Reserve(old(db.products), items) == ReserveFrom(db.products, items, i, orderItems, left, totalAmount)
        invariant |objects| == |left| == i && fresh(objects)
        invariant forall k :: 0 <= k < i ==> objects[k].stock == left[k]
      {
        var item := items[i];
        var product := db.FindProduct(item.productId);
        if product == null {
          return Missing(db.products, i), objects;
        }
        if !product.HasStock(item.quantity) {
          return OutOfStock(db.products, i), objects;
        }
        var r := product.DecreaseStock(item.quantity);
        if !r.Done? {
          return Refused(db.products, i), objects;
        }
        db.SaveProduct(product);
        objects := objects + [product];
        left := left + [product.stock];
        orderItems := orderItems + [OrderItem(item.productId, item.quantity, product.price)];
        totalAmount := totalAmount + product.price * item.quantity;
      }
      return Reserved(db.products, orderItems, left, totalAmount), objects;
    }
  }

  /** Coupons at an order. */
  class CouponsService {
    const db: Tables

    constructor (db: Tables)
      ensures this.db == db
    {
      this.db := db;
    }

    method ValidateAndCalculateDiscount(couponId: Option<int>, totalAmount: int, now: int)
      returns (discountAmount: int, couponUsed: bool)
      modifies db`coupons
      ensures (db.coupons, discountAmount, couponUsed) == ConsumeCoupon(old(db.coupons), couponId, totalAmount, now)
    {
      if NoCoupon(couponId) {
        return 0, false;
      }
      var coupon := db.FindCoupon(couponId.value);
      if coupon == null || !coupon.IsValid(now) {
        return 0, false;
      }
      discountAmount := coupon.CalculateDiscount(totalAmount, now);
      coupon.Use();
      db.SaveCoupon(coupon);
      couponUsed := true;
    }
  }

  /** Points of users. */
  class UsersService {
    const db: Tables

    constructor (db: Tables)
      ensures this.db == db
    {
      this.db := db;
    }

    method Charge(userId: int, amount: int) returns (r: ChargeResult)
      modifies db`users
      ensures (db.State(), r) == ChargePoints(old(db.State()), userId, amount)
    {
      var user := db.FindUser(userId);
      if user == null {
        return UserNotFound;
      }
      var c := user.ChargePoints(amount);
      if !c.Done? {
        return AmountNegative;
      }
      db.SaveUser(user);
      return Charged;
    }

    /** Loads the user a second time; throws on a negative or uncovered amount. */
    method SpendPoints(userId: int, amount: int) returns (ok: bool)
      modifies db`users
      ensures ok <==> userId in old(db.users) && 0 <= amount <= old(db.users)[userId].points
      ensures db.users == if ok then old(db.users)[userId := UserRow(old(db.users)[userId].points - amount)]
                          else old(db.users)
    {
      var user := db.FindUser(userId);
      if user == null {
        return false;
      }
      var r := user.UsePoints(amount);
      if !r.Done? {
        return false;
      }
      db.SaveUser(user);
      return true;
    }
  }

  /** Stored orders. */
  class OrdersService {
    const db: Tables

    constructor (db: Tables)
      ensures this.db == db
    {
      this.db := db;
    }

    /** Stores an order under the next id. */
    method CreateOrder(row: OrderRow) returns (id: nat)
      modifies db`orders
      ensures db.orders == old(db.orders) + [row] && id == |db.orders|
    {
      db.orders := db.orders + [row];
      return |db.orders|;
    }

    method MarkPaid(orderId: int) returns (ok: bool)
      modifies db`orders
      ensures ok <==> 1 <= orderId <= |old(db.orders)|
      ensures db.orders == if ok then old(db.orders)[orderId - 1 := old(db.orders)[orderId - 1].(status := PAID)]
                           else old(db.orders)
    {
      var order := db.FindOrder(orderId);
      if order == null {
        return false;
      }
      order.UpdateStatus(PAID);
      db.SaveOrder(order);
      return true;
    }
  }

  /** Stored payments. */
  class PaymentsService {
    const db: Tables

    constructor (db: Tables)
      ensures this.db == db
    {
      this.db := db;
    }

    method StorePayment(o: Order) returns (ok: bool)
      modifies db`payments
      ensures ok
      ensures db.payments == old(db.payments) + [PaymentRow(o.id, o.row.userId, o.row.totalAmount,
                                                            o.row.discountAmount, o.row.finalAmount,
                                                            o.row.couponUsed, SUCCESS)]
    {
      var payment := new Payment(PaymentRow(o.id, o.row.userId, o.row.totalAmount, o.row.discountAmount,
                                            o.row.finalAmount, o.row.couponUsed, Pending));
      ok := payment.ProcessPayment();
      db.payments := db.payments + [payment.row.(status := payment.status)];
    }
  }

  // ----- checks of an order

  /** The second look at the product objects, in a loop over the lines. */
  method RecheckStock(items: seq<Item>, objects: seq<Product>) returns (ok: bool)
    requires |objects| == |items|
    ensures ok <==> forall i :: 0 <= i < |items| ==> objects[i].stock >= items[i].quantity
  {
    for i := 0 to |items|
      invariant forall k :: 0 <= k < i ==> objects[k].stock >= items[k].quantity
    {
      if !objects[i].HasStock(items[i].quantity) {
        return false;
      }
    }
    return true;
  }

  method ValidateOrderItems(items: seq<Item>) returns (ok: bool)
    ensures ok <==> ValidItems(items)
  {
    if |items| == 0 {
      return false;
    }
    for i := 0 to |items|
      invariant forall k :: 0 <= k < i ==> items[k].productId != 0 && items[k].quantity > 0
    {
      if items[i].productId == 0 || items[i].quantity == 0 {
        return false;
      }
      if items[i].quantity <= 0 {
        return false;
      }
    }
    return true;
  }

  // ----- placing an order

  /** Places orders. */
  class CreateOrderUseCase {
    const db: Tables
    const products: ProductsService
    const coupons: CouponsService
    const orders: OrdersService
    const sales: SalesRanking

    constructor (db: Tables, sales: SalesRanking)
      ensures this.db == db && this.sales == sales && Wired()
    {
      this.db, this.sales := db, sales;
      products := new ProductsService(db);
      coupons := new CouponsService(db);
      orders := new OrdersService(db);
    }

    /** The services work on this use case's tables. */
    predicate Wired() {
      products.db == db && coupons.db == db && orders.db == db
    }

    /** The whole order's checks on the objects at hand, then the stored order and its event. */
    method ValidateAndStore(user: User, items: seq<Item>, objects: seq<Product>, couponId: Option<int>,
                            orderItems: seq<OrderItem>, totalAmount: int, discountAmount: int, couponUsed: bool)
      returns (r: OrderResult)
      requires Wired() && |objects| == |items|
      modifies db`orders, db`timers
      ensures r == if exists i :: 0 <= i < |items| && objects[i].stock < items[i].quantity then RecheckFailed
                   else if user.points < totalAmount - discountAmount then PointsShort
                   else if totalAmount <= 0 || totalAmount < discountAmount then BadAmount
                   else OrderPlaced(|old(db.orders)| + 1)
      ensures !r.OrderPlaced? ==> db.orders == old(db.orders) && db.timers == old(db.timers)
      ensures r.OrderPlaced? ==>
                && db.orders == old(db.orders) + [OrderRow(user.id, orderItems, totalAmount, discountAmount,
                                                           totalAmount - discountAmount, couponId, couponUsed, PENDING)]
                && db.timers == old(db.timers)
                                + [Notice(Some(|db.orders|), ItemsOf(orderItems), couponId, |orderItems|)]
    {
      var finalAmount := totalAmount - discountAmount;
      var ok := RecheckStock(items, objects);
      if !ok {
        return RecheckFailed;
      }
      if !user.HasEnoughPoints(finalAmount) {
        return PointsShort;
      }
      if totalAmount <= 0 || finalAmount < 0 {
        return BadAmount;
      }
      var row := OrderRow(user.id, orderItems, totalAmount, discountAmount, finalAmount, couponId, couponUsed, PENDING);
      var id := orders.CreateOrder(row);
      db.timers := db.timers + [Notice(Some(id), ItemsOf(orderItems), couponId, |orderItems|)];
      return OrderPlaced(id);
    }

    /** The use case up to the stored order; `taken` is history for the failure event. */
    method CreateOrderInternal(userId: int, items: seq<Item>, couponId: Option<int>, now: int)
      returns (r: OrderResult, taken: nat)
      requires Wired()
      modifies db`products, db`coupons, db`orders, db`timers
      ensures (if r.OrderPlaced? then db.State() else FailOrder(db.State(), items, couponId, taken), r)
              == CreateOrder(old(db.State()), userId, items, couponId, now)
    {
      taken := 0;
      var ok := ValidateOrderItems(items);
      if !ok {
        return BadItems, 0;
      }
      var end, objects := products.ValidateAndReserveProducts(items);
      taken := TakenBy(end, items);
      match end
      case Missing(_, _) => return ProductMissing, taken;
      case OutOfStock(_, _) => return StockShort, taken;
      case Refused(_, _) => return NegativeQuantity, taken;
      case Reserved(_, orderItems, left, totalAmount) =>
        var user := db.FindUser(userId);
        if user == null {
          return UserMissing, taken;
        }
        var discountAmount, couponUsed := coupons.ValidateAndCalculateDiscount(couponId, totalAmount, now);
        r := ValidateAndStore(user, items, objects, couponId, orderItems, totalAmount, discountAmount, couponUsed);
        return r, taken;
    }

    /**
     Places an order or, on any failure, publishes the event that carries every line. Today's
     ranking rises by the order's lines exactly when it is placed.
     */
    method PlaceOrder(userId: int, items: seq<Item>, couponId: Option<int>, now: int)
      returns (r: OrderResult)
      requires sales.Valid() && Wired()
      modifies db`products, db`coupons, db`orders, db`timers, db`failed, sales.redis
      ensures sales.Valid()
      ensures (db.State(), r) == CreateOrder(old(db.State()), userId, items, couponId, now)
      ensures OnlyKeyChanged(old(sales.redis.testLocks), sales.redis.testLocks, Daily(now / 86400000))
      ensures r.OrderPlaced? ==>
                sales.At(Daily(now / 86400000))
                == RaiseAll(old(sales.At(Daily(now / 86400000))), ItemsOf(db.orders[|db.orders| - 1].items))
      ensures !r.OrderPlaced? ==> sales.redis.testLocks == old(sales.redis.testLocks)
    {
      var taken;
      r, taken := CreateOrderInternal(userId, items, couponId, now);
      if r.OrderPlaced? {
        sales.UpdateProductRanking(ItemsOf(db.orders[|db.orders| - 1].items), now);
      } else {
        db.failed := db.failed + [Notice(None, items, couponId, taken)];
      }
    }
  }

  // ----- compensating

  /** What the handlers of failed orders and of expired payments do alike. */
  class Compensation {
    const db: Tables
    const sales: SalesRanking

    constructor (db: Tables, sales: SalesRanking)
      ensures this.db == db && this.sales == sales
    {
      this.db, this.sales := db, sales;
    }

    /** Restores line after line until a product is missing; says whether every line was restored. */
    method RestoreProductStock(items: seq<Item>) returns (ok: bool)
      modifies db`products
      ensures db.products == RestoreFrom(old(db.products), items, 0)
      ensures ok <==> RestoreStop(old(db.products).Keys, items) == |items|
    {
      for i := 0 to |items|
        invariant RestoreFrom(old(db.products), items, 0) == RestoreFrom(db.products, items, i)
        invariant db.products.Keys == old(db.products).Keys
        invariant RestoreStop(old(db.products).Keys, items) == StopFrom(old(db.products).Keys, items, i)
      {
        var product := db.FindProduct(items[i].productId);
        if product == null {
          return false;
        }
        product.IncreaseStock(items[i].quantity);
        db.SaveProduct(product);
      }
      return true;
    }

    method RestoreCouponUsage(couponId: int) returns (ok: bool)
      modifies db`coupons
      ensures ok <==> couponId in old(db.coupons)
      ensures db.coupons == if ok then old(db.coupons)[couponId := old(db.coupons)[couponId].(isUsed := false)]
                            else old(db.coupons)
    {
      var coupon := db.FindCoupon(couponId);
      if coupon == null {
        return false;
      }
      if coupon.isUsed {
        coupon.RevertUsage();
        db.SaveCoupon(coupon);
      }
      return true;
    }

    /** The three parts both handlers share; a part that throws ends the handler. */
    method RunCompensation(e: Notice, now: int) returns (completed: bool)
      requires sales.Valid()
      modifies db`products, db`coupons, sales.redis
      ensures sales.Valid()
      ensures db.State() == Compensate(old(db.State()), e)
      ensures completed <==> CompensationCompletes(old(db.State()), e)
      ensures completed <==> && RestoreStop(old(db.products).Keys, e.items) == |e.items|
                             && (e.couponId == None || e.couponId == Some(0) || e.couponId.value in old(db.coupons))
      ensures RankingLowered(old(sales.redis.testLocks), sales.redis.testLocks, now / 86400000, e.items, completed)
    {
      var ok := RestoreProductStock(e.items);
      if !ok {
        return false;
      }
      if !NoCoupon(e.couponId) {
        ok := RestoreCouponUsage(e.couponId.value);
        if !ok {
          return false;
        }
      }
      sales.RestoreProductRanking(e.items, now);
      return true;
    }
  }

  /** Today's ranking comes down by the lines when the compensation completed; no other key changes. */
  ghost predicate RankingLowered(before: Store, after: Store, today: int, items: seq<Item>, completed: bool) {
    && OnlyKeyChanged(before, after, Daily(today))
    && EntriesAt(after, Daily(today))
       == if completed then LowerAll(EntriesAt(before, Daily(today)), items) else EntriesAt(before, Daily(today))
  }

  /** Handles published order failures. */
  class OrderFailedHandler {
    const db: Tables
    const sales: SalesRanking
    const compensation: Compensation

    constructor (db: Tables, sales: SalesRanking)
      ensures this.db == db && this.sales == sales && Wired()
    {
      this.db, this.sales := db, sales;
      compensation := new Compensation(db, sales);
    }

    predicate Wired() {
      compensation.db == db && compensation.sales == sales
    }

    /** Delivers one published failure event. */
    method HandleOrderFailed(i: nat, now: int) returns (completed: bool)
      requires sales.Valid() && Wired() && i < |db.failed|
      modifies db`products, db`coupons, db`failed, sales.redis
      ensures sales.Valid()
      ensures db.State() == CompensateFailed(old(db.State()), i)
      ensures completed <==> CompensationCompletes(old(db.State()), old(db.failed)[i])
      ensures RankingLowered(old(sales.redis.testLocks), sales.redis.testLocks, now / 86400000,
                             old(db.failed)[i].items, completed)
    {
      var e := db.failed[i];
      db.failed := Without(db.failed, i);
      completed := compensation.RunCompensation(e, now);
    }
  }

  /** Handles payment failures. */
  class PaymentFailedHandler {
    const db: Tables
    const sales: SalesRanking
    const compensation: Compensation

    constructor (db: Tables, sales: SalesRanking)
      ensures this.db == db && this.sales == sales && Wired()
    {
      this.db, this.sales := db, sales;
      compensation := new Compensation(db, sales);
    }

    predicate Wired() {
      compensation.db == db && compensation.sales == sales
    }

    /** A payment failure compensates only when it is a timeout. */
    method HandlePaymentFailed(e: Notice, isTimeout: bool, now: int) returns (completed: bool)
      requires sales.Valid() && Wired()
      modifies db`products, db`coupons, sales.redis
      ensures sales.Valid()
      ensures db.State() == if isTimeout then Compensate(old(db.State()), e) else old(db.State())
      ensures !isTimeout ==> completed && sales.redis.testLocks == old(sales.redis.testLocks)
      ensures isTimeout ==>
                && (completed <==> CompensationCompletes(old(db.State()), e))
                && RankingLowered(old(sales.redis.testLocks), sales.redis.testLocks, now / 86400000, e.items, completed)
    {
      completed := true;
      if isTimeout {
        completed := compensation.RunCompensation(e, now);
      }
    }
  }

  /** Owns the timers of placed orders. */
  class OrderCreatedHandler {
    const db: Tables
    const sales: SalesRanking
    const payments: PaymentFailedHandler

    constructor (db: Tables, sales: SalesRanking)
      ensures this.db == db && this.sales == sales && Wired()
    {
      this.db, this.sales := db, sales;
      payments := new PaymentFailedHandler(db, sales);
    }

    predicate Wired() {
      payments.db == db && payments.sales == sales && payments.Wired()
    }

    /** Ten minutes after an order its timer publishes a payment failure with the timeout mark. */
    method TimerExpires(i: nat, now: int) returns (completed: bool)
      requires sales.Valid() && Wired() && i < |db.timers|
      modifies db`products, db`coupons, db`timers, sales.redis
      ensures sales.Valid()
      ensures db.State() == FireTimer(old(db.State()), i)
      ensures completed <==> CompensationCompletes(old(db.State()), old(db.timers)[i])
      ensures RankingLowered(old(sales.redis.testLocks), sales.redis.testLocks, now / 86400000,
                             old(db.timers)[i].items, completed)
    {
      var e := db.timers[i];
      db.timers := Without(db.timers, i);
      completed := payments.HandlePaymentFailed(e, true, now);
    }
  }

  // ----- paying

  /** Pays orders. */
  class ProcessPaymentUseCase {
    const db: Tables
    const payments: PaymentsService
    const users: UsersService
    const orders: OrdersService

    constructor (db: Tables)
      ensures this.db == db && Wired()
    {
      this.db := db;
      payments := new PaymentsService(db);
      users := new UsersService(db);
      orders := new OrdersService(db);
    }

    /** The services work on this use case's tables. */
    predicate Wired() {
      payments.db == db && users.db == db && orders.db == db
    }

    method Pay(orderId: int) returns (r: PaymentResult)
      requires Wired()
      modifies db`payments, db`users, db`orders
      ensures (db.State(), r) == ProcessPayment(old(db.State()), orderId)
    {
      var order := db.FindOrder(orderId);
      if order == null {
        return OrderMissing;
      }
      var user := db.FindUser(order.row.userId);
      if user == null {
        return PayerMissing;
      }
      if order.status != PENDING {
        return AlreadyProcessed;
      }
      if !user.HasEnoughPoints(order.row.finalAmount) {
        return NotEnoughPoints;
      }
      var ok := payments.StorePayment(order);
      ok := users.SpendPoints(order.row.userId, order.row.finalAmount);
      if !ok {
        return PointsRefused;
      }
      ok := orders.MarkPaid(orderId);
      return Paid;
    }
  }
}
