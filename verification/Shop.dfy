/**
 Orders, payments and compensation as serial steps over the database: what each use case and
 each handler does to products, coupons, users, orders and payments, and which events it leaves.
 */
module Shop {
  import opened Common
  import opened Items
  import opened Entities

  type Products = map<int, ProductRow>
  type Coupons = map<int, CouponRow>
  type Users = map<int, UserRow>

  /**
   An event on its way to a handler: the order, the lines and the coupon it carries. A failed
   order has only a temporary id. `reserved` is history: how many of the lines had been taken
   from stock when it was published.
   */
  datatype Notice = Notice(orderId: Option<nat>, items: seq<Item>, couponId: Option<int>, reserved: nat)

  /** The database and the events under way. Row i of `orders` has id i + 1. */
  datatype Database = Database(
    products: Products,
    coupons: Coupons,
    users: Users,
    orders: seq<OrderRow>,
    payments: seq<PaymentRow>,
    timers: seq<Notice>,
    failed: seq<Notice>)

  function ItemsOf(items: seq<OrderItem>): seq<Item> {
    seq(|items|, (i: nat) requires i < |items| => Item(items[i].productId, items[i].quantity))
  }

  // ----- checks

  /** Neither empty, nor a line without product or quantity, nor a quantity below 1. */
  predicate ValidItems(items: seq<Item>) {
    items != [] && forall i :: 0 <= i < |items| ==> items[i].productId != 0 && items[i].quantity > 0
  }

  /** `!couponId`: no id, or id 0. */
  predicate NoCoupon(couponId: Option<int>) {
    couponId.None? || couponId.value == 0
  }

  // ----- reserving

  datatype Reservation =
    | Reserved(products: Products, lines: seq<OrderItem>, left: seq<int>, total: int)
    | Missing(products: Products, at: nat)
    | OutOfStock(products: Products, at: nat)
    | Refused(products: Products, at: nat)

  /** From line `i` on: look up, check, take from stock and save; stops at the first failure. */
  function ReserveFrom(ps: Products, items: seq<Item>, i: nat, lines: seq<OrderItem>, left: seq<int>,
                       total: int): Reservation
    requires i <= |items|
    decreases |items| - i
  {
    if i == |items| then Reserved(ps, lines, left, total)
    else
      var p, q := items[i].productId, items[i].quantity;
      if p !in ps then Missing(ps, i)
      else if ps[p].stock < q then OutOfStock(ps, i)
      else if q < 0 then Refused(ps, i)
      else
        ReserveFrom(ps[p := ProductRow(ps[p].price, ps[p].stock - q)], items, i + 1,
                    lines + [OrderItem(p, q, ps[p].price)], left + [ps[p].stock - q], total + ps[p].price * q)
  }

  function Reserve(ps: Products, items: seq<Item>): Reservation {
    ReserveFrom(ps, items, 0, [], [], 0)
  }

  /** How many lines a reservation took from stock. */
  function TakenBy(r: Reservation, items: seq<Item>): nat {
    if r.Reserved? then |items| else r.at
  }

  // ----- restoring

  /** Where the restore loop stops: the first line whose product is missing, or the end. */
  function StopFrom(keys: set<int>, items: seq<Item>, i: nat): (m: nat)
    requires i <= |items|
    ensures i <= m <= |items|
    ensures forall k :: i <= k < m ==> items[k].productId in keys
    ensures m < |items| ==> items[m].productId !in keys
    decreases |items| - i
  {
    if i == |items| || items[i].productId !in keys then i else StopFrom(keys, items, i + 1)
  }

  function RestoreStop(keys: set<int>, items: seq<Item>): nat {
    StopFrom(keys, items, 0)
  }

  function RestoreFrom(ps: Products, items: seq<Item>, i: nat): Products
    requires i <= |items|
    decreases |items| - i
  {
    if i == |items| || items[i].productId !in ps then ps
    else
      var p := items[i].productId;
      RestoreFrom(ps[p := ProductRow(ps[p].price, ps[p].stock + items[i].quantity)], items, i + 1)
  }

  /** Whether a coupon named in an event can be put back: its absence stops the handler. */
  predicate CouponFound(cs: Coupons, couponId: Option<int>) {
    NoCoupon(couponId) || couponId.value in cs
  }

  function UnuseCoupon(cs: Coupons, couponId: Option<int>): Coupons {
    if NoCoupon(couponId) || couponId.value !in cs then cs
    else cs[couponId.value := cs[couponId.value].(isUsed := false)]
  }

  /** Stock first; the coupon only when every line was restored. */
  function Compensate(db: Database, e: Notice): Database {
    var products := RestoreFrom(db.products, e.items, 0);
    if RestoreStop(db.products.Keys, e.items) < |e.items| then db.(products := products)
    else db.(products := products, coupons := UnuseCoupon(db.coupons, e.couponId))
  }

  /** The handler reaches its last part, the ranking. */
  predicate CompensationCompletes(db: Database, e: Notice) {
    RestoreStop(db.products.Keys, e.items) == |e.items| && CouponFound(db.coupons, e.couponId)
  }

  function Without(s: seq<Notice>, i: nat): seq<Notice>
    requires i < |s|
  {
    s[..i] + s[i + 1..]
  }

  // ----- the use cases

  datatype OrderResult =
    | OrderPlaced(orderId: nat)
    | BadItems
    | ProductMissing
    | StockShort
    | NegativeQuantity
    | UserMissing
    | RecheckFailed
    | PointsShort
    | BadAmount

  /** A coupon that is named, found and valid is used up; its discount is computed before that. */
  function ConsumeCoupon(cs: Coupons, couponId: Option<int>, total: int, now: int): (Coupons, int, bool) {
    if NoCoupon(couponId) || couponId.value !in cs || !UsableCoupon(cs[couponId.value], now) then (cs, 0, false)
    else
      var c := cs[couponId.value];
      (cs[couponId.value := c.(isUsed := true)], Discount(c, total, now), true)
  }

  /** The second stock check looks at the stocks left by each line's own reservation. */
  predicate RecheckPasses(items: seq<Item>, left: seq<int>) {
    |left| == |items| && forall i :: 0 <= i < |items| ==> left[i] >= items[i].quantity
  }

  /** Everything a failing order leaves behind, and the event about it. */
  function FailOrder(db: Database, items: seq<Item>, couponId: Option<int>, taken: nat): Database {
    db.(failed := db.failed + [Notice(None, items, couponId, taken)])
  }

  function CreateOrder(db: Database, userId: int, items: seq<Item>, couponId: Option<int>, now: int)
    : (Database, OrderResult)
  {
    if !ValidItems(items) then (FailOrder(db, items, couponId, 0), BadItems)
    else
      var r := Reserve(db.products, items);
      var db1 := db.(products := r.products);
      match r
      case Missing(_, k) => (FailOrder(db1, items, couponId, k), ProductMissing)
      case OutOfStock(_, k) => (FailOrder(db1, items, couponId, k), StockShort)
      case Refused(_, k) => (FailOrder(db1, items, couponId, k), NegativeQuantity)
      case Reserved(_, lines, left, total) =>
        if userId !in db.users then (FailOrder(db1, items, couponId, |items|), UserMissing)
        else
          var (coupons, discount, used) := ConsumeCoupon(db.coupons, couponId, total, now);
          var db2 := db1.(coupons := coupons);
          var final := total - discount;
          if !RecheckPasses(items, left) then (FailOrder(db2, items, couponId, |items|), RecheckFailed)
          else if db.users[userId].points < final then (FailOrder(db2, items, couponId, |items|), PointsShort)
          else if total <= 0 || final < 0 then (FailOrder(db2, items, couponId, |items|), BadAmount)
          else
            var row := OrderRow(userId, lines, total, discount, final, couponId, used, PENDING);
            var id := |db.orders| + 1;
            var timer := Notice(Some(id), ItemsOf(lines), couponId, |lines|);
            (db2.(orders := db.orders + [row], timers := db.timers + [timer]), OrderPlaced(id))
  }

  datatype PaymentResult =
    | Paid
    | OrderMissing
    | PayerMissing
    | AlreadyProcessed
    | NotEnoughPoints
    | PointsRefused       // thrown after the payment was stored

  /** Validate, store the payment, spend the points, mark the order; each may throw, nothing is undone. */
  function ProcessPayment(db: Database, orderId: int): (Database, PaymentResult) {
    if !(1 <= orderId <= |db.orders|) then (db, OrderMissing)
    else
      var o := db.orders[orderId - 1];
      if o.userId !in db.users then (db, PayerMissing)
      else if o.status != PENDING then (db, AlreadyProcessed)
      else if db.users[o.userId].points < o.finalAmount then (db, NotEnoughPoints)
      else
        var payment := PaymentRow(orderId, o.userId, o.totalAmount, o.discountAmount, o.finalAmount, o.couponUsed,
                                  SUCCESS);
        var db1 := db.(payments := db.payments + [payment]);
        if o.finalAmount < 0 then (db1, PointsRefused)
        else
          (db1.(users := db.users[o.userId := UserRow(db.users[o.userId].points - o.finalAmount)],
                orders := db.orders[orderId - 1 := o.(status := PAID)]),
           Paid)
  }

  datatype ChargeResult = Charged | UserNotFound | AmountNegative

  function ChargePoints(db: Database, userId: int, amount: int): (Database, ChargeResult) {
    if userId !in db.users then (db, UserNotFound)
    else if amount < 0 then (db, AmountNegative)
    else (db.(users := db.users[userId := UserRow(db.users[userId].points + amount)]), Charged)
  }

  // ----- the handlers

  /** The handler of a failed order takes its event and compensates. */
  function CompensateFailed(db: Database, i: nat): Database
    requires i < |db.failed|
  {
    Compensate(db.(failed := Without(db.failed, i)), db.failed[i])
  }

  /** A timer fires once and its handler compensates, whatever became of the order. */
  function FireTimer(db: Database, i: nat): Database
    requires i < |db.timers|
  {
    Compensate(db.(timers := Without(db.timers, i)), db.timers[i])
  }
}
