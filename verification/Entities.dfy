/**
 The domain entities as the objects the services load, change in place and save, and the
 database rows they are loaded from.
 */
module Entities {
  import opened Common

  datatype ProductRow = ProductRow(price: int, stock: int)

  datatype UserRow = UserRow(points: int)

  datatype CouponRow = CouponRow(
    userId: int,
    couponType: string,
    discountRate: int,
    discountAmount: int,
    expiryDate: int,
    isUsed: bool)

  datatype OrderItem = OrderItem(productId: int, quantity: int, price: int)

  datatype OrderStatus = PENDING | PAID

  datatype OrderRow = OrderRow(
    userId: int,
    items: seq<OrderItem>,
    totalAmount: int,
    discountAmount: int,
    finalAmount: int,
    couponId: Option<int>,
    couponUsed: bool,
    status: OrderStatus)

  datatype PaymentStatus = Pending | SUCCESS

  datatype PaymentRow = PaymentRow(
    orderId: int,
    userId: int,
    totalAmount: int,
    discountAmount: int,
    finalAmount: int,
    couponUsed: bool,
    status: PaymentStatus)

  /** Whether a coupon row is unused and not past its expiry. */
  predicate UsableCoupon(c: CouponRow, now: int) {
    !c.isUsed && now <= c.expiryDate
  }

  /** A percentage rounded down, or the fixed amount; nothing when the coupon is not valid. */
  function Discount(c: CouponRow, total: int, now: int): int {
    if !UsableCoupon(c, now) then 0
    else if c.discountRate > 0 then total * c.discountRate / 100
    else c.discountAmount
  }

  /**
   The rule a discount follows: nothing for a used or expired coupon; for a rate the largest
   whole amount that is not above the percentage; otherwise the coupon's own amount.
   */
  predicate DiscountRule(c: CouponRow, total: int, now: int, d: int) {
    && (c.isUsed || now > c.expiryDate ==> d == 0)
    && (!c.isUsed && now <= c.expiryDate && c.discountRate > 0 ==>
          d * 100 <= total * c.discountRate < (d + 1) * 100)
    && (!c.isUsed && now <= c.expiryDate && c.discountRate <= 0 ==> d == c.discountAmount)
  }

  /** The rule determines the discount. */
  lemma DiscountExactly(c: CouponRow, total: int, now: int, d: int)
    ensures DiscountRule(c, total, now, d) <==> d == Discount(c, total, now)
  {
  }

  /** A percentage of at most 100 discounts no more than the total, and never below nothing. */
  lemma PercentageWithinTotal(c: CouponRow, total: int, now: int)
    requires total >= 0 && 0 < c.discountRate <= 100
    ensures 0 <= Discount(c, total, now) <= total
  {
    assert 0 <= total * c.discountRate;
    assert total * c.discountRate <= total * 100;
  }

  datatype Change = Done | Negative | NotEnough

  class Product {
    const id: int
    const price: int
    var stock: int

    constructor (id: int, row: ProductRow)
      ensures this.id == id && Row() == row
    {
      this.id, this.price, this.stock := id, row.price, row.stock;
    }

    function Row(): ProductRow
      reads this
    {
      ProductRow(price, stock)
    }

    predicate HasStock(quantity: int)
      reads this
    {
      stock >= quantity
    }

    method DecreaseStock(quantity: int) returns (r: Change)
      modifies this
      ensures r == if quantity < 0 then Negative else if old(stock) < quantity then NotEnough else Done
      ensures stock == if r.Done? then old(stock) - quantity else old(stock)
    {
      if quantity < 0 {
        return Negative;
      }
      if !HasStock(quantity) {
        return NotEnough;
      }
      stock := stock - quantity;
      return Done;
    }

    /** No check at all: a negative quantity takes stock away. */
    method IncreaseStock(quantity: int)
      modifies this
      ensures stock == old(stock) + quantity
    {
      stock := stock + quantity;
    }
  }

  class User {
    const id: int
    var points: int

    constructor (id: int, row: UserRow)
      ensures this.id == id && Row() == row
    {
      this.id, this.points := id, row.points;
    }

    function Row(): UserRow
      reads this
    {
      UserRow(points)
    }

    predicate HasEnoughPoints(amount: int)
      reads this
    {
      points >= amount
    }

    method ChargePoints(amount: int) returns (r: Change)
      modifies this
      ensures r == if amount < 0 then Negative else Done
      ensures points == if r.Done? then old(points) + amount else old(points)
    {
      if amount < 0 {
        return Negative;
      }
      points := points + amount;
      return Done;
    }

    method UsePoints(amount: int) returns (r: Change)
      modifies this
      ensures r == if amount < 0 then Negative else if amount > old(points) then NotEnough else Done
      ensures points == if r.Done? then old(points) - amount else old(points)
    {
      if amount < 0 {
        return Negative;
      }
      if amount > points {
        return NotEnough;
      }
      points := points - amount;
      return Done;
    }
  }

  class Coupon {
    const id: int
    const fixedPart: CouponRow
    var isUsed: bool

    constructor (id: int, row: CouponRow)
      ensures this.id == id && Row() == row
    {
      this.id, this.fixedPart, this.isUsed := id, row, row.isUsed;
    }

    function Row(): CouponRow
      reads this
    {
      fixedPart.(isUsed := isUsed)
    }

    method Use()
      modifies this
      ensures isUsed
    {
      isUsed := true;
    }

    method RevertUsage()
      modifies this
      ensures !isUsed
    {
      isUsed := false;
    }

    predicate IsExpired(now: int)
      reads this
    {
      now > fixedPart.expiryDate
    }

    predicate IsValid(now: int)
      reads this
    {
      !isUsed && !IsExpired(now)
    }

    function CalculateDiscount(totalAmount: int, now: int): (d: int)
      reads this
      ensures DiscountRule(Row(), totalAmount, now, d)
    {
      if !IsValid(now) then 0
      else if fixedPart.discountRate > 0 then totalAmount * fixedPart.discountRate / 100
      else fixedPart.discountAmount
    }
  }

  class Payment {
    const row: PaymentRow
    var status: PaymentStatus

    constructor (row: PaymentRow)
      ensures Row() == row
    {
      this.row, this.status := row, row.status;
    }

    function Row(): PaymentRow
      reads this
    {
      row.(status := status)
    }

    /** Only a payment that is still pending may be processed. */
    method ProcessPayment() returns (ok: bool)
      modifies this
      ensures ok <==> old(status).Pending?
      ensures status == if ok then SUCCESS else old(status)
    {
      if status != Pending {
        return false;
      }
      status := SUCCESS;
      return true;
    }
  }

  class Order {
    const id: int
    const row: OrderRow
    var status: OrderStatus

    constructor (id: int, row: OrderRow)
      ensures this.id == id && Row() == row
    {
      this.id, this.row, this.status := id, row, row.status;
    }

    function Row(): OrderRow
      reads this
    {
      row.(status := status)
    }

    method UpdateStatus(status: OrderStatus)
      modifies this
      ensures this.status == status
    {
      this.status := status;
    }
  }
}
