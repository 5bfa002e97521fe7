/**
 The daily sales rankings over whole runs: orders raise the ranking of the day they are placed,
 compensations that complete lower the ranking of the day they run.
 */
module SalesRuns {
  import opened Common
  import opened Items
  import opened Entities
  import opened SortedSets
  import opened Shop
  import opened ShopLaws
  import opened ShopRuns
  import opened TopSellers

  /** An event and the date on which it happens. */
  datatype Dated = Dated(e: Event, today: int)

  type Rankings = map<int, Entries>

  function RankingOf(ranks: Rankings, date: int): Entries {
    if date in ranks then ranks[date] else []
  }

  /** The lines an event adds to its day's ranking. */
  function RaisedBy(s: Run, e: Event): seq<Item> {
    if e.Order? && CreateOrder(s.db, e.userId, e.items, e.couponId, e.now).1.OrderPlaced? then e.items else []
  }

  /** The lines an event takes off its day's ranking: those of a compensation that completes. */
  function LoweredBy(s: Run, e: Event): seq<Item> {
    match e
    case DeliverFailure(i) =>
      if i < |s.db.failed| && CompensationCompletes(s.db, s.db.failed[i]) then s.db.failed[i].items else []
    case TimerExpires(i) =>
      if i < |s.db.timers| && CompensationCompletes(s.db, s.db.timers[i]) then s.db.timers[i].items else []
    case _ => []
  }

  ghost function ApplyToRankings(ranks: Rankings, s: Run, d: Dated): Rankings {
    ranks[d.today := LowerAll(RaiseAll(RankingOf(ranks, d.today), RaisedBy(s, d.e)), LoweredBy(s, d.e))]
  }

  function EventsOf(ds: seq<Dated>): seq<Event> {
    if ds == [] then [] else EventsOf(ds[..|ds| - 1]) + [ds[|ds| - 1].e]
  }

  /** The shop's run just before the last of the events. */
  function BeforeLast(db0: Database, ds: seq<Dated>): Run
    requires ds != []
  {
    After(db0, EventsOf(ds[..|ds| - 1]))
  }

  /** All daily rankings after a run that began with none. */
  ghost function RankingsAfter(db0: Database, ds: seq<Dated>): Rankings {
    if ds == [] then map[]
    else ApplyToRankings(RankingsAfter(db0, ds[..|ds| - 1]), BeforeLast(db0, ds), ds[|ds| - 1])
  }

  /** What was ordered of a product on a date. */
  function OrderedOn(db0: Database, ds: seq<Dated>, date: int, p: int): int {
    if ds == [] then 0
    else
      var d := ds[|ds| - 1];
      OrderedOn(db0, ds[..|ds| - 1], date, p)
      + if d.today == date then QuantityOf(RaisedBy(BeforeLast(db0, ds), d.e), p) else 0
  }

  /** What the compensations that completed on a date listed of a product. */
  function CompensatedOn(db0: Database, ds: seq<Dated>, date: int, p: int): int {
    if ds == [] then 0
    else
      var d := ds[|ds| - 1];
      CompensatedOn(db0, ds[..|ds| - 1], date, p)
      + if d.today == date then QuantityOf(LoweredBy(BeforeLast(db0, ds), d.e), p) else 0
  }

  lemma RaisedIsPositive(s: Run, e: Event)
    ensures NonNegative(RaisedBy(s, e))
  {
    if RaisedBy(s, e) != [] {
      PlacedOrder(s.db, e.userId, e.items, e.couponId, e.now);
    }
  }

  /** One event's effect on a score of its day. */
  lemma DayStep(es: Entries, raised: seq<Item>, lowered: seq<Item>, p: int)
    requires Unique(es) && ScoreOr0(es, p) >= 0 && NonNegative(raised)
    ensures Unique(LowerAll(RaiseAll(es, raised), lowered))
    ensures ScoreOr0(LowerAll(RaiseAll(es, raised), lowered), p)
            == LeftOf(ScoreOr0(es, p) + QuantityOf(raised, p), lowered, p) >= 0
  {
    RaiseAllMeaning(es, raised);
    QuantityOfNonNegative(raised, p);
    LowerAllMeaning(RaiseAll(es, raised), lowered, p);
  }

  lemma RankingStep(ranks: Rankings, s: Run, d: Dated, date: int, p: int)
    requires Unique(RankingOf(ranks, date)) && ScoreOr0(RankingOf(ranks, date), p) >= 0
    ensures var after := RankingOf(ApplyToRankings(ranks, s, d), date);
            && Unique(after)
            && ScoreOr0(after, p) >= 0
            && ScoreOr0(after, p)
               == if d.today != date then ScoreOr0(RankingOf(ranks, date), p)
                  else LeftOf(ScoreOr0(RankingOf(ranks, date), p) + QuantityOf(RaisedBy(s, d.e), p),
                              LoweredBy(s, d.e), p)
  {
    RaisedIsPositive(s, d.e);
    if d.today == date {
      DayStep(RankingOf(ranks, date), RaisedBy(s, d.e), LoweredBy(s, d.e), p);
    }
  }

  /** In every run no score is negative, whatever the lines. */
  lemma {:induction false} ScoresNeverNegative(db0: Database, ds: seq<Dated>, date: int, p: int)
    ensures Unique(RankingOf(RankingsAfter(db0, ds), date))
    ensures ScoreOr0(RankingOf(RankingsAfter(db0, ds), date), p) >= 0
  {
    if ds == [] {
      assert !Has([], p);
    } else {
      ScoresNeverNegative(db0, ds[..|ds| - 1], date, p);
      RankingStep(RankingsAfter(db0, ds[..|ds| - 1]), BeforeLast(db0, ds), ds[|ds| - 1], date, p);
    }
  }

  ghost predicate LinesNonNegative(db0: Database, ds: seq<Dated>) {
    forall k :: 0 < k <= |ds| ==> NonNegative(LoweredBy(BeforeLast(db0, ds[..k]), ds[k - 1].e))
  }

  lemma PrefixLinesNonNegative(db0: Database, ds: seq<Dated>)
    requires LinesNonNegative(db0, ds) && ds != []
    ensures LinesNonNegative(db0, ds[..|ds| - 1])
    ensures NonNegative(LoweredBy(BeforeLast(db0, ds), ds[|ds| - 1].e))
  {
    var before := ds[..|ds| - 1];
    forall k | 0 < k <= |before|
      ensures NonNegative(LoweredBy(BeforeLast(db0, before[..k]), before[k - 1].e))
    {
      assert before[..k] == ds[..k];
    }
    assert ds[..|ds|] == ds;
  }

  predicate Between(score: int, ordered: int, compensated: int) {
    Max(0, ordered - compensated) <= score <= ordered && compensated >= 0
  }

  lemma BetweenStep(score: int, ordered: int, compensated: int, raised: int, lowered: int)
    requires Between(score, ordered, compensated) && raised >= 0 && lowered >= 0
    ensures Between(Max(0, score + raised - lowered), ordered + raised, compensated + lowered)
  {
  }

  /** Without negative quantities an event's effect on a score of its day is floored once. */
  lemma PlainStep(ranks: Rankings, s: Run, d: Dated, p: int)
    requires Unique(RankingOf(ranks, d.today)) && ScoreOr0(RankingOf(ranks, d.today), p) >= 0
    requires NonNegative(LoweredBy(s, d.e))
    ensures QuantityOf(RaisedBy(s, d.e), p) >= 0 && QuantityOf(LoweredBy(s, d.e), p) >= 0
    ensures ScoreOr0(RankingOf(ApplyToRankings(ranks, s, d), d.today), p)
            == Max(0, ScoreOr0(RankingOf(ranks, d.today), p) + QuantityOf(RaisedBy(s, d.e), p)
                      - QuantityOf(LoweredBy(s, d.e), p))
  {
    var raised, lowered := RaisedBy(s, d.e), LoweredBy(s, d.e);
    RaisedIsPositive(s, d.e);
    var es := RankingOf(ranks, d.today);
    RaisedScore(es, raised, p);
    PlainDay(es, RaiseAll(es, raised), QuantityOf(raised, p), lowered, p);
  }

  lemma RaisedScore(es: Entries, raised: seq<Item>, p: int)
    requires Unique(es) && NonNegative(raised)
    ensures Unique(RaiseAll(es, raised)) && QuantityOf(raised, p) >= 0
    ensures ScoreOr0(RaiseAll(es, raised), p) == ScoreOr0(es, p) + QuantityOf(raised, p)
  {
    RaiseAllMeaning(es, raised);
    QuantityOfNonNegative(raised, p);
  }

  lemma PlainDay(es: Entries, mid: Entries, raised: int, lowered: seq<Item>, p: int)
    requires Unique(mid) && ScoreOr0(es, p) >= 0 && raised >= 0 && NonNegative(lowered)
    requires ScoreOr0(mid, p) == ScoreOr0(es, p) + raised
    ensures QuantityOf(lowered, p) >= 0
    ensures ScoreOr0(LowerAll(mid, lowered), p) == Max(0, ScoreOr0(es, p) + raised - QuantityOf(lowered, p))
  {
    LowerAllPlain(mid, lowered, p);
  }

  /** The score of a product on a date after a run. */
  ghost function ScoreOn(db0: Database, ds: seq<Dated>, date: int, p: int): int {
    ScoreOr0(RankingOf(RankingsAfter(db0, ds), date), p)
  }

  lemma ScoreStep(db0: Database, ds: seq<Dated>, date: int, p: int, raised: int, lowered: int)
    requires ds != [] && NonNegative(LoweredBy(BeforeLast(db0, ds), ds[|ds| - 1].e))
    requires raised == QuantityOf(RaisedBy(BeforeLast(db0, ds), ds[|ds| - 1].e), p)
    requires lowered == QuantityOf(LoweredBy(BeforeLast(db0, ds), ds[|ds| - 1].e), p)
    ensures raised >= 0 && lowered >= 0
    ensures var before := ScoreOn(db0, ds[..|ds| - 1], date, p);
            ScoreOn(db0, ds, date, p)
            == if ds[|ds| - 1].today == date then Max(0, before + raised - lowered) else before
  {
    var ranks, s, d := RankingsAfter(db0, ds[..|ds| - 1]), BeforeLast(db0, ds), ds[|ds| - 1];
    ScoresNeverNegative(db0, ds[..|ds| - 1], d.today, p);
    PlainStep(ranks, s, d, p);
    if d.today != date {
      OtherDayKept(ranks, s, d, date);
    }
  }

  lemma OtherDayKept(ranks: Rankings, s: Run, d: Dated, date: int)
    requires d.today != date
    ensures RankingOf(ApplyToRankings(ranks, s, d), date) == RankingOf(ranks, date)
  {
  }

  /**
   Over every run whose compensations list no negative quantity: a day's score lies between what
   was ordered that day less what compensations listed that day, and what was ordered that day.
   */
  lemma {:induction false} ScoreBetween(db0: Database, ds: seq<Dated>, date: int, p: int)
    requires LinesNonNegative(db0, ds)
    ensures Between(ScoreOn(db0, ds, date, p), OrderedOn(db0, ds, date, p), CompensatedOn(db0, ds, date, p))
  {
    if ds == [] {
      assert !Has([], p);
    } else {
      var before, s, d := ds[..|ds| - 1], BeforeLast(db0, ds), ds[|ds| - 1];
      PrefixLinesNonNegative(db0, ds);
      ScoreBetween(db0, before, date, p);
      var raised, lowered := QuantityOf(RaisedBy(s, d.e), p), QuantityOf(LoweredBy(s, d.e), p);
      ScoreStep(db0, ds, date, p, raised, lowered);
      BetweenStep(ScoreOn(db0, before, date, p), OrderedOn(db0, before, date, p),
                  CompensatedOn(db0, before, date, p), raised, lowered);
    }
  }

  // ----- an order and its timer

  /**
   An order raises its day's scores by its lines; its timer, on the same day and with the coupon
   it names still there, lowers them by the same lines: the scores are as before.
   */
  lemma TimerUndoesRaise(s: Run, e: Event, es: Entries)
    requires e.Order? && CreateOrder(s.db, e.userId, e.items, e.couponId, e.now).1.OrderPlaced?
    requires e.couponId == None || e.couponId == Some(0) || e.couponId.value in s.db.coupons
    requires Unique(es) && ScoresCovered(es)
    ensures var s1 := Apply(s, e);
            var timer := TimerExpires(|s.db.timers|);
            && RaisedBy(s, e) == e.items && LoweredBy(s, e) == []
            && RaisedBy(s1, timer) == [] && LoweredBy(s1, timer) == e.items
            && SameScores(LowerAll(RaiseAll(es, e.items), e.items), es)
  {
    PlacedOrder(s.db, e.userId, e.items, e.couponId, e.now);
    var s1 := Apply(s, e);
    assert s1.db.timers[|s.db.timers|].items == e.items && s1.db.timers[|s.db.timers|].couponId == e.couponId;
    StopAfter(s.db.products.Keys, e.items, 0, |e.items|);
    LoweringUndoesRaising(es, e.items);
  }

  lemma LoweringUndoesRaising(es: Entries, lines: seq<Item>)
    requires Unique(es) && ScoresCovered(es) && NonNegative(lines)
    ensures SameScores(LowerAll(RaiseAll(es, lines), lines), es)
  {
    forall p
      ensures ScoreOr0(LowerAll(RaiseAll(es, lines), lines), p) == ScoreOr0(es, p)
    {
      RaisedScore(es, lines, p);
      PlainDay(es, RaiseAll(es, lines), QuantityOf(lines, p), lines, p);
    }
  }

  // ----- a failed order and its compensation

  /** The event of a failed order, delivered right after it. */
  function OwnFailure(s: Run): Event {
    DeliverFailure(|s.db.failed|)
  }

  /**
   A failed order never raised a score, yet its compensation lowers them: the day's scores stay
   as they were exactly when the compensation breaks off, or every listed product that has a
   score is listed with quantities that cancel out before they use the score up.
   */
  lemma FailedOrderErasesSales(s: Run, e: Event, es: Entries)
    requires e.Order? && !CreateOrder(s.db, e.userId, e.items, e.couponId, e.now).1.OrderPlaced?
    requires Unique(es) && ScoresCovered(es)
    ensures var s1 := Apply(s, e);
            var mid := LowerAll(RaiseAll(es, RaisedBy(s, e)), LoweredBy(s, e));
            var after := LowerAll(RaiseAll(mid, RaisedBy(s1, OwnFailure(s))), LoweredBy(s1, OwnFailure(s)));
            && mid == es
            && (SameScores(after, es) <==>
                  || RestoreStop(s.db.products.Keys, e.items) < |e.items|
                  || (e.couponId.Some? && e.couponId.value != 0 && e.couponId.value !in s.db.coupons)
                  || forall p :: ScoreOr0(es, p) != 0 ==>
                       QuantityOf(e.items, p) == 0 && !Exhausts(e.items, p, ScoreOr0(es, p)))
  {
    FailedOrder(s.db, e.userId, e.items, e.couponId, e.now);
    CouponsAfterFailure(s.db, e.userId, e.items, e.couponId, e.now);
    var s1 := Apply(s, e);
    var n := s1.db.failed[|s.db.failed|];
    assert n.items == e.items && n.couponId == e.couponId;
    assert CompensationCompletes(s1.db, n) <==>
      RestoreStop(s.db.products.Keys, e.items) == |e.items| && CouponFound(s.db.coupons, e.couponId);
    LoweringKeepsScoresExactly(es, e.items);
  }

  /** A covered line ordered by nobody we know: refused, and its compensation takes real sales off the day. */
  lemma UnknownUserErasesSales(s: Run, userId: int, p: int, q: int, now: int, es: Entries)
    requires p in s.db.products && p != 0 && 0 < q <= s.db.products[p].stock && userId !in s.db.users
    requires Unique(es) && ScoresCovered(es) && ScoreOr0(es, p) > 0
    ensures var e := Order(userId, [Item(p, q)], None, now);
            var s1 := Apply(s, e);
            && CreateOrder(s.db, userId, [Item(p, q)], None, now).1.UserMissing?
            && LoweredBy(s1, OwnFailure(s)) == [Item(p, q)]
            && ScoreOr0(LowerAll(es, LoweredBy(s1, OwnFailure(s))), p) == Max(0, ScoreOr0(es, p) - q) < ScoreOr0(es, p)
  {
    var items := [Item(p, q)];
    OneLine(p, q);
    LineFound(s.db.products.Keys, items);
    assert Takeable(s.db.products, items, 0);
    ReservedExactly(s.db.products, items);
    FailedOrder(s.db, userId, items, None, now);
    LowerAllPlain(es, items, p);
  }

  /** For lines without negative quantities: exactly when no listed product with a score is asked for at all. */
  lemma NonNegativeLinesEraseExactly(es: Entries, lines: seq<Item>)
    requires Unique(es) && ScoresCovered(es) && NonNegative(lines)
    ensures SameScores(LowerAll(es, lines), es) <==>
            forall i :: 0 <= i < |lines| && lines[i].quantity != 0 ==> ScoreOr0(es, lines[i].productId) == 0
  {
    var after := LowerAll(es, lines);
    forall p
      ensures ScoreOr0(after, p) == ScoreOr0(es, p) <==> ScoreOr0(es, p) == 0 || QuantityOf(lines, p) == 0
      ensures QuantityOf(lines, p) == 0 <==>
              forall i :: 0 <= i < |lines| && lines[i].productId == p ==> lines[i].quantity == 0
    {
      LowerAllPlain(es, lines, p);
      NothingAsked(lines, p);
    }
  }

  lemma {:induction false} NothingAsked(lines: seq<Item>, p: int)
    requires NonNegative(lines)
    ensures QuantityOf(lines, p) >= 0
    ensures QuantityOf(lines, p) == 0 <==>
            forall i :: 0 <= i < |lines| && lines[i].productId == p ==> lines[i].quantity == 0
  {
    if lines != [] {
      var n := |lines| - 1;
      NothingAsked(lines[..n], p);
      assert forall i :: 0 <= i < n ==> lines[..n][i] == lines[i];
    }
  }
}
