/** What the coupon types on offer do to an order. */
module CouponTypes {
  import opened Common
  import opened Items
  import opened Entities
  import opened CouponService
  import opened Shop
  import opened ShopLaws

  /** The types the service knows. */
  lemma KnownTypesExactly(couponType: string)
    ensures ConfigOf(couponType).Some? <==>
            couponType in ["DISCOUNT_10PERCENT", "DISCOUNT_20PERCENT", "DISCOUNT_30PERCENT",
                           "FIXED_1000", "FIXED_2000", "LIMITED_OFFER"]
  {
  }

  /** A coupon as issued can be used for 30 days of 86 400 000 ms, one of a limited offer for 7. */
  lemma UsableForItsDaysExactly(holder: int, couponType: string, issuedAt: int, now: int)
    requires ConfigOf(couponType).Some?
    ensures UsableCoupon(NewCoupon(holder, couponType, issuedAt), now) <==>
            now - issuedAt <= (if couponType == "LIMITED_OFFER" then 7 * 86400000 else 30 * 86400000)
    ensures NewCoupon(holder, couponType, issuedAt).userId == holder
    ensures NewCoupon(holder, couponType, issuedAt).couponType == couponType
  {
  }

  /** What a type takes off a total: the largest whole amount within the percentage, or its amount. */
  predicate TypeGives(couponType: string, total: int, d: int) {
    match couponType
    case "DISCOUNT_10PERCENT" => d * 100 <= total * 10 < (d + 1) * 100
    case "DISCOUNT_20PERCENT" => d * 100 <= total * 20 < (d + 1) * 100
    case "DISCOUNT_30PERCENT" => d * 100 <= total * 30 < (d + 1) * 100
    case "LIMITED_OFFER" => d * 100 <= total * 15 < (d + 1) * 100
    case "FIXED_1000" => d == 1000
    case "FIXED_2000" => d == 2000
    case _ => false
  }

  /** The discount of a coupon as issued: its type's within its days, none afterwards. */
  lemma DiscountOfTypeExactly(holder: int, couponType: string, issuedAt: int, total: int, now: int)
    requires ConfigOf(couponType).Some?
    ensures var d := Discount(NewCoupon(holder, couponType, issuedAt), total, now);
            if now - issuedAt <= (if couponType == "LIMITED_OFFER" then 7 * 86400000 else 30 * 86400000)
            then TypeGives(couponType, total, d) else d == 0
  {
    DiscountExactly(NewCoupon(holder, couponType, issuedAt), total, now,
                    Discount(NewCoupon(holder, couponType, issuedAt), total, now));
  }

  /** A placed order with a coupon as issued: discounted by its type within its days, at full price afterwards. */
  lemma OrderDiscountByType(db: Database, userId: int, items: seq<Item>, couponId: int, now: int,
                            holder: int, couponType: string, issuedAt: int)
    requires ConfigOf(couponType).Some?
    requires couponId != 0 && couponId in db.coupons
    requires db.coupons[couponId] == NewCoupon(holder, couponType, issuedAt)
    requires CreateOrder(db, userId, items, Some(couponId), now).1.OrderPlaced?
    ensures var db' := CreateOrder(db, userId, items, Some(couponId), now).0;
            |db'.orders| == |db.orders| + 1
            && var o := db'.orders[|db.orders|];
               if now - issuedAt <= (if couponType == "LIMITED_OFFER" then 7 * 86400000 else 30 * 86400000)
               then o.couponUsed && TypeGives(couponType, o.totalAmount, o.discountAmount)
               else !o.couponUsed && o.discountAmount == 0 && o.finalAmount == o.totalAmount
  {
    PlacedOrder(db, userId, items, Some(couponId), now);
    var total := TotalOf(db.products, items, |items|);
    DiscountOfTypeExactly(holder, couponType, issuedAt, total, now);
    UsableForItsDaysExactly(holder, couponType, issuedAt, now);
  }

  /** Every type on offer is a percentage of at most 100 or a fixed amount above 0. */
  lemma TypesOnOffer(couponType: string)
    requires ConfigOf(couponType).Some?
    ensures var cfg := ConfigOf(couponType).value;
            || (0 < cfg.discountRate <= 100 && cfg.discountAmount == 0)
            || (cfg.discountRate == 0 && cfg.discountAmount > 0)
  {
  }

  /**
   An order with a positive total and a usable coupon of a type on offer, fine in all else, fails
   for its amount exactly when the type is a fixed amount and the total is below it.
   */
  lemma DiscountSpoilsOrderExactly(db: Database, userId: int, items: seq<Item>, couponId: int,
                                   now: int, holder: int, couponType: string, issuedAt: int)
    requires ConfigOf(couponType).Some?
    requires couponId != 0 && couponId in db.coupons
    requires db.coupons[couponId] == NewCoupon(holder, couponType, issuedAt)
    requires now <= db.coupons[couponId].expiryDate
    requires ReachesAmounts(db, userId, items, Some(couponId), now) && TotalOf(db.products, items, |items|) > 0
    ensures CreateOrder(db, userId, items, Some(couponId), now).1.BadAmount? <==>
            var cfg := ConfigOf(couponType).value;
            cfg.discountRate == 0 && TotalOf(db.products, items, |items|) < cfg.discountAmount
  {
    var total := TotalOf(db.products, items, |items|);
    BadAmountExactly(db, userId, items, Some(couponId), now);
    TypesOnOffer(couponType);
    if ConfigOf(couponType).value.discountRate > 0 {
      PercentageWithinTotal(db.coupons[couponId], total, now);
    }
  }
}
