/**
 Sales ranking: daily scores raised by orders, the nightly three-day aggregation through a flat
 member/score list, and the top five.
 */
module TopSellers {
  import opened Common
  import opened SortedSets
  import opened RedisStore
  import opened Items

  datatype ProductInfo = ProductInfo(name: string, price: int)

  datatype TopSeller = TopSeller(id: int, name: string, price: int)

  // ----- adding scores to a sorted set

  /** Adds to the score of a member, from 0 when it is absent. */
  ghost function Raise(es: Entries, member: int, delta: int): Entries {
    Put(es, member, ScoreOr0(es, member) + delta)
  }

  lemma RaiseMeaning(es: Entries, member: int, delta: int)
    requires Unique(es)
    ensures Unique(Raise(es, member, delta)) && Has(Raise(es, member, delta), member)
    ensures forall p :: ScoreOr0(Raise(es, member, delta), p) == ScoreOr0(es, p) + if p == member then delta else 0
    ensures forall p :: Has(es, p) ==> Has(Raise(es, member, delta), p)
  {
    PutMeaning(es, member, ScoreOr0(es, member) + delta);
  }

  ghost function RaiseAll(es: Entries, lines: seq<Item>): Entries {
    if lines == [] then es
    else Raise(RaiseAll(es, lines[..|lines| - 1]), lines[|lines| - 1].productId, lines[|lines| - 1].quantity)
  }

  /** Every product gains exactly its quantity, however often it is listed. */
  lemma {:induction false} RaiseAllMeaning(es: Entries, lines: seq<Item>)
    requires Unique(es)
    ensures Unique(RaiseAll(es, lines))
    ensures forall p :: ScoreOr0(RaiseAll(es, lines), p) == ScoreOr0(es, p) + QuantityOf(lines, p)
  {
    if lines != [] {
      var n := |lines| - 1;
      RaiseAllMeaning(es, lines[..n]);
      RaiseMeaning(RaiseAll(es, lines[..n]), lines[n].productId, lines[n].quantity);
    }
  }

  /** Takes a quantity off a score that is present and not 0, never below 0. */
  ghost function Lower(es: Entries, member: int, quantity: int): Entries {
    if ScoreSeen(es, member).Some? then Put(es, member, Max(0, ScoreOr0(es, member) - quantity)) else es
  }

  ghost function LowerAll(es: Entries, lines: seq<Item>): Entries {
    if lines == [] then es
    else Lower(LowerAll(es, lines[..|lines| - 1]), lines[|lines| - 1].productId, lines[|lines| - 1].quantity)
  }

  lemma LowerMeaning(es: Entries, member: int, quantity: int)
    requires Unique(es)
    ensures Unique(Lower(es, member, quantity))
    ensures forall p :: p != member ==> ScoreOr0(Lower(es, member, quantity), p) == ScoreOr0(es, p)
    ensures ScoreOr0(Lower(es, member, quantity), member)
            == if ScoreOr0(es, member) == 0 then 0 else Max(0, ScoreOr0(es, member) - quantity)
  {
    PutMeaning(es, member, Max(0, ScoreOr0(es, member) - quantity));
  }

  /** Some prefix of the lines asks for at least the whole score. */
  ghost predicate Exhausts(lines: seq<Item>, p: int, score: int) {
    exists k :: 0 <= k <= |lines| && QuantityOf(lines[..k], p) >= score
  }

  /** What is left of a score: 0 for good once a prefix of the lines asks for all of it. */
  ghost function LeftOf(score: int, lines: seq<Item>, p: int): int {
    if Exhausts(lines, p, score) then 0 else score - QuantityOf(lines, p)
  }

  lemma ExhaustsOneMore(lines: seq<Item>, p: int, score: int)
    requires lines != []
    ensures Exhausts(lines, p, score) <==> Exhausts(lines[..|lines| - 1], p, score) || QuantityOf(lines, p) >= score
  {
    var n := |lines| - 1;
    if Exhausts(lines, p, score) {
      var k :| 0 <= k <= |lines| && QuantityOf(lines[..k], p) >= score;
      if k <= n {
        assert lines[..n][..k] == lines[..k];
      } else {
        assert lines[..k] == lines;
      }
    }
    if Exhausts(lines[..n], p, score) {
      var k :| 0 <= k <= n && QuantityOf(lines[..n][..k], p) >= score;
      assert lines[..n][..k] == lines[..k];
    }
    assert lines[..|lines|] == lines;
  }

  /** Lowering by any lines, negative quantities included: the floor makes the order of lines matter. */
  lemma {:induction false} LowerAllMeaning(es: Entries, lines: seq<Item>, p: int)
    requires Unique(es) && ScoreOr0(es, p) >= 0
    ensures Unique(LowerAll(es, lines))
    ensures ScoreOr0(LowerAll(es, lines), p) == LeftOf(ScoreOr0(es, p), lines, p) >= 0
  {
    var score := ScoreOr0(es, p);
    if lines == [] {
      assert lines[..0] == [];
      assert Exhausts(lines, p, score) <==> score <= 0;
    } else {
      var n := |lines| - 1;
      LowerAllMeaning(es, lines[..n], p);
      ExhaustsOneMore(lines, p, score);
      LowerMeaning(LowerAll(es, lines[..n]), lines[n].productId, lines[n].quantity);
    }
  }

  /** Without negative quantities lowering line by line is lowering by the total, floored once. */
  lemma {:induction false} LowerAllPlain(es: Entries, lines: seq<Item>, p: int)
    requires Unique(es) && ScoreOr0(es, p) >= 0
    requires forall i :: 0 <= i < |lines| ==> lines[i].quantity >= 0
    ensures Unique(LowerAll(es, lines))
    ensures QuantityOf(lines, p) >= 0
    ensures ScoreOr0(LowerAll(es, lines), p) == Max(0, ScoreOr0(es, p) - QuantityOf(lines, p))
  {
    if lines != [] {
      var n := |lines| - 1;
      LowerAllPlain(es, lines[..n], p);
      LowerMeaning(LowerAll(es, lines[..n]), lines[n].productId, lines[n].quantity);
    }
  }

  ghost predicate ScoresCovered(es: Entries) {
    forall p :: ScoreOr0(es, p) >= 0
  }

  ghost predicate SameScores(a: Entries, b: Entries) {
    forall p :: ScoreOr0(a, p) == ScoreOr0(b, p)
  }

  /** A compensation leaves the scores alone exactly when each scored product's lines cancel out unexhausted. */
  lemma LoweringKeepsScoresExactly(es: Entries, lines: seq<Item>)
    requires Unique(es) && ScoresCovered(es)
    ensures SameScores(LowerAll(es, lines), es) <==>
            forall p :: ScoreOr0(es, p) != 0 ==> QuantityOf(lines, p) == 0 && !Exhausts(lines, p, ScoreOr0(es, p))
  {
    forall p
      ensures ScoreOr0(LowerAll(es, lines), p) == ScoreOr0(es, p) <==>
              (ScoreOr0(es, p) != 0 ==> QuantityOf(lines, p) == 0 && !Exhausts(lines, p, ScoreOr0(es, p)))
    {
      LowerAllMeaning(es, lines, p);
      assert lines[..|lines|] == lines;
      assert lines[..0] == [];
      assert ScoreOr0(es, p) == 0 ==> Exhausts(lines, p, ScoreOr0(es, p));
    }
  }

  // ----- the three-day aggregation

  /** The entries of a daily ranking as additions. */
  function LinesOf(es: Entries): seq<Item> {
    seq(|es|, (i: nat) requires i < |es| => Item(es[i].member, es[i].score))
  }

  lemma {:induction false} QuantityOfAbsent(lines: seq<Item>, p: int)
    requires forall i :: 0 <= i < |lines| ==> lines[i].productId != p
    ensures QuantityOf(lines, p) == 0
  {
    if lines != [] {
      QuantityOfAbsent(lines[..|lines| - 1], p);
    }
  }

  /** Walking a ranking meets each product's score once. */
  lemma {:induction false} WalkMeetsScores(es: Entries, n: nat, p: int)
    requires Unique(es) && n <= |es|
    ensures QuantityOf(LinesOf(es)[..n], p) == if Has(es, p) && IndexOf(es, p) < n then ScoreOr0(es, p) else 0
  {
    if n > 0 {
      WalkMeetsScores(es, n - 1, p);
      assert LinesOf(es)[..n][..n - 1] == LinesOf(es)[..n - 1];
      IndexOfAt(es, n - 1);
    }
  }

  lemma SortedScores(es: Entries, p: int)
    requires Unique(es)
    ensures Unique(SortByScore(es)) && ScoreOr0(SortByScore(es), p) == ScoreOr0(es, p)
    ensures Has(SortByScore(es), p) <==> Has(es, p)
  {
    var out := SortByScore(es);
    SortCorrect(es);
    SortContents(es);
    if Has(es, p) {
      assert es[IndexOf(es, p)] in out;
      var k :| 0 <= k < |out| && out[k] == es[IndexOf(es, p)];
      IndexOfAt(out, k);
    }
    if Has(out, p) {
      assert out[IndexOf(out, p)] in es;
      var k :| 0 <= k < |es| && es[k] == out[IndexOf(out, p)];
      IndexOfAt(es, k);
    }
  }

  /** One day added to the overall ranking, in the order the range lists it. */
  ghost function AddDay(overall: Entries, day: Entries): Entries {
    RaiseAll(overall, LinesOf(SortByScore(day)))
  }

  lemma AddDayMeaning(overall: Entries, day: Entries)
    requires Unique(overall) && Unique(day)
    ensures Unique(AddDay(overall, day))
    ensures forall p :: ScoreOr0(AddDay(overall, day), p) == ScoreOr0(overall, p) + ScoreOr0(day, p)
  {
    var walk := LinesOf(SortByScore(day));
    RaiseAllMeaning(overall, walk);
    forall p
      ensures QuantityOf(walk, p) == ScoreOr0(day, p)
    {
      SortedScores(day, p);
      WalkMeetsScores(SortByScore(day), |SortByScore(day)|, p);
      assert walk[..|walk|] == walk;
    }
  }

  /** The members of the first `n` entries of a range that a list does not have yet, in order. */
  ghost function Newcomers(overall: Entries, range: Entries, n: nat): seq<int>
    requires n <= |range|
  {
    if n == 0 then []
    else Newcomers(overall, range, n - 1) + if Has(overall, range[n - 1].member) then [] else [range[n - 1].member]
  }

  lemma MembersAfterPut(es: Entries, member: int, score: int)
    requires Unique(es)
    ensures MembersOf(Put(es, member, score)) == if Has(es, member) then MembersOf(es) else MembersOf(es) + [member]
  {
    PutMeaning(es, member, score);
  }

  lemma HasByMembers(es: Entries, member: int)
    ensures Has(es, member) <==> member in MembersOf(es)
  {
    if Has(es, member) {
      assert MembersOf(es)[IndexOf(es, member)] == member;
    }
    if member in MembersOf(es) {
      var k :| 0 <= k < |es| && MembersOf(es)[k] == member;
      assert es[k].member == member;
    }
  }

  lemma {:induction false} NewcomersAreNamed(overall: Entries, range: Entries, n: nat, member: int)
    requires n <= |range|
    ensures member in Newcomers(overall, range, n) <==>
            !Has(overall, member) && exists k :: 0 <= k < n && range[k].member == member
  {
    if n > 0 {
      NewcomersAreNamed(overall, range, n - 1, member);
    }
  }

  /** One more entry of the range. */
  lemma MembersStep(overall: Entries, before: Entries, range: Entries, n: nat, delta: int)
    requires Unique(before) && Unique(range) && 0 < n <= |range|
    requires MembersOf(before) == MembersOf(overall) + Newcomers(overall, range, n - 1)
    ensures MembersOf(Raise(before, range[n - 1].member, delta)) == MembersOf(overall) + Newcomers(overall, range, n)
  {
    var m := range[n - 1].member;
    MembersAfterPut(before, m, ScoreOr0(before, m) + delta);
    HasByMembers(before, m);
    HasByMembers(overall, m);
    NewcomersAreNamed(overall, range, n - 1, m);
    assert MembersOf(overall) + Newcomers(overall, range, n - 1) + [m]
           == MembersOf(overall) + (Newcomers(overall, range, n - 1) + [m]);
  }

  lemma WalkUnique(overall: Entries, lines: seq<Item>)
    requires Unique(overall)
    ensures Unique(RaiseAll(overall, lines))
  {
    RaiseAllMeaning(overall, lines);
  }

  lemma {:induction false} MembersAfterWalk(overall: Entries, range: Entries, n: nat)
    requires Unique(overall) && Unique(range) && n <= |range|
    ensures MembersOf(RaiseAll(overall, LinesOf(range)[..n])) == MembersOf(overall) + Newcomers(overall, range, n)
  {
    if n > 0 {
      var before := RaiseAll(overall, LinesOf(range)[..n - 1]);
      WalkUnique(overall, LinesOf(range)[..n - 1]);
      MembersAfterWalk(overall, range, n - 1);
      RaiseAllOneMore(overall, LinesOf(range), n - 1);
      MembersStep(overall, before, range, n, range[n - 1].score);
    } else {
      assert MembersOf(overall) + [] == MembersOf(overall);
    }
  }

  /** The ages after a day: present members keep their places, the day's others follow in order of their sales. */
  lemma AddDayAges(overall: Entries, day: Entries)
    requires Unique(overall) && Unique(day)
    ensures MembersOf(AddDay(overall, day))
            == MembersOf(overall) + Newcomers(overall, SortByScore(day), |SortByScore(day)|)
  {
    var range := SortByScore(day);
    SortCorrect(day);
    MembersAfterWalk(overall, range, |range|);
    assert LinesOf(range)[..|range|] == LinesOf(range);
  }

  ghost function AddDays(overall: Entries, days: seq<Entries>): Entries {
    if days == [] then overall else AddDay(AddDays(overall, days[..|days| - 1]), days[|days| - 1])
  }

  ghost function SumOfDays(days: seq<Entries>, p: int): int {
    if days == [] then 0 else SumOfDays(days[..|days| - 1], p) + ScoreOr0(days[|days| - 1], p)
  }

  lemma {:induction false} AddDaysUnique(overall: Entries, days: seq<Entries>)
    requires Unique(overall) && forall i :: 0 <= i < |days| ==> Unique(days[i])
    ensures Unique(AddDays(overall, days))
  {
    if days != [] {
      AddDaysUnique(overall, days[..|days| - 1]);
      AddDayMeaning(AddDays(overall, days[..|days| - 1]), days[|days| - 1]);
    }
  }

  /** For every product: the old overall score plus the daily scores. */
  lemma {:induction false} AddDaysMeaning(overall: Entries, days: seq<Entries>, p: int)
    requires Unique(overall) && forall i :: 0 <= i < |days| ==> Unique(days[i])
    ensures ScoreOr0(AddDays(overall, days), p) == ScoreOr0(overall, p) + SumOfDays(days, p)
  {
    if days != [] {
      var n := |days| - 1;
      AddDaysMeaning(overall, days[..n], p);
      AddDaysUnique(overall, days[..n]);
      AddDayMeaning(AddDays(overall, days[..n]), days[n]);
    }
  }

  /** The aggregation is the sum of the days exactly when no product had an overall score before. */
  lemma AggregationIsSumExactly(overall: Entries, days: seq<Entries>)
    requires Unique(overall) && forall i :: 0 <= i < |days| ==> Unique(days[i])
    ensures (forall p :: ScoreOr0(AddDays(overall, days), p) == SumOfDays(days, p))
            <==> (forall p :: ScoreOr0(overall, p) == 0)
  {
    forall p
      ensures ScoreOr0(AddDays(overall, days), p) == ScoreOr0(overall, p) + SumOfDays(days, p)
    {
      AddDaysMeaning(overall, days, p);
    }
    if p :| ScoreOr0(overall, p) != 0 {
      assert ScoreOr0(AddDays(overall, days), p) != SumOfDays(days, p);
    }
  }

  /** Recalculations night after night, each over the daily rankings that it finds. */
  ghost function Nights(overall: Entries, nights: seq<seq<Entries>>): Entries {
    if nights == [] then overall else AddDays(Nights(overall, nights[..|nights| - 1]), nights[|nights| - 1])
  }

  ghost function SumOfNights(nights: seq<seq<Entries>>, p: int): int {
    if nights == [] then 0 else SumOfNights(nights[..|nights| - 1], p) + SumOfDays(nights[|nights| - 1], p)
  }

  ghost predicate AllUnique(days: seq<Entries>) {
    forall i :: 0 <= i < |days| ==> Unique(days[i])
  }

  lemma {:induction false} NightsUnique(overall: Entries, nights: seq<seq<Entries>>)
    requires Unique(overall) && forall k :: 0 <= k < |nights| ==> AllUnique(nights[k])
    ensures Unique(Nights(overall, nights))
  {
    if nights != [] {
      var n := |nights| - 1;
      NightsUnique(overall, nights[..n]);
      assert AllUnique(nights[n]);
      AddDaysUnique(Nights(overall, nights[..n]), nights[n]);
    }
  }

  /** Whatever the daily rankings are each night: a score is the old one plus all the nights' sums. */
  lemma {:induction false} NightsAccumulate(overall: Entries, nights: seq<seq<Entries>>, p: int)
    requires Unique(overall) && forall k :: 0 <= k < |nights| ==> AllUnique(nights[k])
    ensures ScoreOr0(Nights(overall, nights), p) == ScoreOr0(overall, p) + SumOfNights(nights, p)
  {
    if nights != [] {
      var n := |nights| - 1;
      NightsAccumulate(overall, nights[..n], p);
      NightsUnique(overall, nights[..n]);
      assert AllUnique(nights[n]);
      AddDaysMeaning(Nights(overall, nights[..n]), nights[n], p);
    }
  }

  /** The dates move by one each night: night k adds the days k + 2, k + 1 and k. */
  function Windows(days: seq<Entries>, n: nat): (nights: seq<seq<Entries>>)
    requires |days| == n + 2
    ensures |nights| == n
  {
    seq(n, (k: nat) requires k < n => [days[k + 2], days[k + 1], days[k]])
  }

  lemma SumOfOneMore(days: seq<Entries>, day: Entries, p: int)
    ensures SumOfDays(days + [day], p) == SumOfDays(days, p) + ScoreOr0(day, p)
  {
    assert (days + [day])[..|days|] == days;
  }

  lemma SumOfThree(a: Entries, b: Entries, c: Entries, p: int)
    ensures SumOfDays([a, b, c], p) == ScoreOr0(a, p) + ScoreOr0(b, p) + ScoreOr0(c, p)
  {
    SumOfOneMore([], a, p);
    SumOfOneMore([a], b, p);
    SumOfOneMore([a, b], c, p);
    assert [] + [a] == [a] && [a] + [b] == [a, b] && [a, b] + [c] == [a, b, c];
  }

  lemma {:induction false} SumOfWindows(days: seq<Entries>, n: nat, p: int)
    requires |days| == n + 2
    ensures SumOfNights(Windows(days, n), p)
            == SumOfDays(days[..n], p) + SumOfDays(days[1..n + 1], p) + SumOfDays(days[2..], p)
  {
    if n == 0 {
      assert days[..0] == [] && days[1..1] == [] && days[2..] == [];
    } else {
      var before := days[..n + 1];
      SumOfWindows(before, n - 1, p);
      assert Windows(days, n)[..n - 1] == Windows(before, n - 1);
      SumOfThree(days[n + 1], days[n], days[n - 1], p);
      assert before[..n - 1] == days[..n][..n - 1];
      assert before[1..n] == days[1..n + 1][..n - 1];
      assert before[2..] == days[2..][..n - 1];
    }
  }

  /**
   After n nights with moving dates a score is the old one plus every window's sum: three times
   the days in the middle, less often those at the two ends.
   */
  lemma SlidingNights(overall: Entries, days: seq<Entries>, n: nat, p: int)
    requires Unique(overall) && |days| == n + 2 && AllUnique(days)
    ensures ScoreOr0(Nights(overall, Windows(days, n)), p)
            == ScoreOr0(overall, p) + SumOfDays(days[..n], p) + SumOfDays(days[1..n + 1], p) + SumOfDays(days[2..], p)
  {
    var nights := Windows(days, n);
    forall k | 0 <= k < |nights|
      ensures AllUnique(nights[k])
    {
      assert Unique(days[k]) && Unique(days[k + 1]) && Unique(days[k + 2]);
    }
    NightsAccumulate(overall, nights, p);
    SumOfWindows(days, n, p);
  }

  /** One day's sales, with nothing else: after the three nights that see it they count three times. */
  lemma ThirdNightTriples(member: int, sold: int)
    ensures var days := [[], [], [Entry(member, sold)], [], []];
            ScoreOr0(Nights([], Windows(days, 3)), member) == 3 * sold
  {
    var day := [Entry(member, sold)];
    var days := [[], [], day, [], []];
    assert day[0].member == member && Has(day, member) && IndexOf(day, member) == 0;
    assert Unique([]) && !Has([], member);
    SlidingNights([], days, 3, member);
    assert days[..3] == [[], [], day] && days[1..4] == [[], day, []] && days[2..] == [day, [], []];
    SumOfThree([], [], day, member);
    SumOfThree([], day, [], member);
    SumOfThree(day, [], [], member);
  }

  /** From order lines to the overall ranking: days written only by orders, no overall key yet. */
  lemma OrdersReachOverall(orders: seq<seq<Item>>, p: int)
    ensures var days := seq(|orders|, (i: nat) requires i < |orders| => RaiseAll([], orders[i]));
            ScoreOr0(AddDays([], days), p) == QuantityOfAll(orders, p)
  {
    var days := seq(|orders|, (i: nat) requires i < |orders| => RaiseAll([], orders[i]));
    forall i: nat | i < |orders|
      ensures Unique(days[i]) && ScoreOr0(days[i], p) == QuantityOf(orders[i], p)
    {
      assert Unique([]) && !Has([], p);
      RaiseAllMeaning([], orders[i]);
    }
    assert Unique([]) && !Has([], p);
    AddDaysMeaning([], days, p);
    SumIsQuantity(days, orders, p);
  }

  lemma {:induction false} SumIsQuantity(days: seq<Entries>, orders: seq<seq<Item>>, p: int)
    requires |days| == |orders|
    requires forall i :: 0 <= i < |days| ==> ScoreOr0(days[i], p) == QuantityOf(orders[i], p)
    ensures SumOfDays(days, p) == QuantityOfAll(orders, p)
  {
    if days != [] {
      SumIsQuantity(days[..|days| - 1], orders[..|days| - 1], p);
    }
  }

  function QuantityOfAll(orders: seq<seq<Item>>, p: int): int {
    if orders == [] then 0 else QuantityOfAll(orders[..|orders| - 1], p) + QuantityOf(orders[|orders| - 1], p)
  }

  // ----- the top five

  function Negated(es: Entries): Entries {
    seq(|es|, (i: nat) requires i < |es| => Entry(es[i].member, -es[i].score))
  }

  /** `sort((a, b) => b.score - a.score)`: the stable descending sort. */
  function SortDescending(es: Entries): Entries {
    Negated(SortByScore(Negated(es)))
  }

  const TOP := 5

  /** The first five of the descending sort of the full ascending range. */
  function TopFive(overall: Entries): Entries {
    var ranking := SortDescending(SortByScore(overall));
    ranking[..Min(TOP, |ranking|)]
  }

  lemma NegatedIn(es: Entries, e: Entry)
    ensures e in Negated(es) <==> Entry(e.member, -e.score) in es
  {
    var neg := Negated(es);
    if e in neg {
      var k :| 0 <= k < |neg| && neg[k] == e;
      assert es[k] == Entry(e.member, -e.score);
    }
    if Entry(e.member, -e.score) in es {
      var k :| 0 <= k < |es| && es[k] == Entry(e.member, -e.score);
      assert neg[k] == e;
    }
  }

  lemma DescendingContents(es: Entries)
    requires Unique(es)
    ensures var out := SortDescending(es);
            && |out| == |es| && Unique(out)
            && (forall e :: e in out <==> e in es)
            && (forall i, j :: 0 <= i < j < |out| ==> out[i].score >= out[j].score)
            && (forall i, j :: 0 <= i < j < |out| && out[i].score == out[j].score ==>
                  IndexOf(es, out[i].member) < IndexOf(es, out[j].member))
  {
    var neg := Negated(es);
    var asc := SortByScore(neg);
    var out := SortDescending(es);
    assert Unique(neg);
    SortCorrect(neg);
    SortContents(neg);
    forall e
      ensures e in out <==> e in es
    {
      NegatedIn(asc, e);
      NegatedIn(es, Entry(e.member, -e.score));
    }
    forall i, j | 0 <= i < j < |out|
      ensures out[i].score >= out[j].score
      ensures out[i].score == out[j].score ==> IndexOf(es, out[i].member) < IndexOf(es, out[j].member)
    {
      assert Precedes(neg, asc[i], asc[j]);
      assert out[i] in out && out[j] in out;
      NegatedIndex(es, out[i]);
      NegatedIndex(es, out[j]);
    }
  }

  lemma NegatedIndex(es: Entries, e: Entry)
    requires Unique(es) && e in es
    ensures IndexOf(Negated(es), e.member) == IndexOf(es, e.member) < |es|
  {
    var k :| 0 <= k < |es| && es[k] == e;
    IndexOfAt(es, k);
    assert Negated(es)[k].member == e.member;
    assert Unique(Negated(es));
    IndexOfAt(Negated(es), k);
  }

  /** Equal scores stand in the ascending range by age. */
  lemma RangeTies(overall: Entries, a: Entry, b: Entry)
    requires Unique(overall) && a in overall && b in overall && a.score == b.score
    requires IndexOf(SortByScore(overall), a.member) < IndexOf(SortByScore(overall), b.member)
    ensures IndexOf(overall, a.member) < IndexOf(overall, b.member)
  {
    var range := SortByScore(overall);
    SortCorrect(overall);
    SortContents(overall);
    var i :| 0 <= i < |range| && range[i] == a;
    var j :| 0 <= j < |range| && range[j] == b;
    IndexOfAt(range, i);
    IndexOfAt(range, j);
    assert Precedes(overall, range[i], range[j]);
  }

  /** By score from the top, ties by age. */
  ghost predicate RankedBefore(overall: Entries, a: Entry, b: Entry) {
    a.score > b.score || (a.score == b.score && IndexOf(overall, a.member) < IndexOf(overall, b.member))
  }

  /** All of `overall`, each once, in that order. */
  ghost predicate Ranks(ranking: Entries, overall: Entries) {
    && |ranking| == |overall| && Unique(ranking)
    && (forall e :: e in ranking <==> e in overall)
    && (forall i, j :: 0 <= i < j < |ranking| ==> RankedBefore(overall, ranking[i], ranking[j]))
  }

  lemma RankingOrder(overall: Entries)
    requires Unique(overall)
    ensures Ranks(SortDescending(SortByScore(overall)), overall)
  {
    var range := SortByScore(overall);
    SortCorrect(overall);
    SortContents(overall);
    DescendingContents(range);
    var ranking := SortDescending(range);
    forall i, j | 0 <= i < j < |ranking|
      ensures RankedBefore(overall, ranking[i], ranking[j])
    {
      if ranking[i].score == ranking[j].score {
        assert ranking[i] in ranking && ranking[j] in ranking;
        RangeTies(overall, ranking[i], ranking[j]);
      }
    }
  }

  /** Whoever is in a ranking but not among the first `n` stands after each of them. */
  lemma AfterPrefix(ranking: Entries, overall: Entries, n: nat, e: Entry, t: Entry)
    requires Ranks(ranking, overall) && n <= |ranking|
    requires e in overall && e !in ranking[..n] && t in ranking[..n]
    ensures RankedBefore(overall, t, e)
  {
    var j :| 0 <= j < |ranking| && ranking[j] == e;
    var i :| 0 <= i < n && ranking[..n][i] == t;
    assert forall k :: 0 <= k < n ==> ranking[k] == ranking[..n][k] && ranking[..n][k] in ranking[..n];
    assert RankedBefore(overall, ranking[i], ranking[j]);
  }

  lemma PrefixRanked(ranking: Entries, overall: Entries, n: nat)
    requires Ranks(ranking, overall) && n <= |ranking|
    ensures Unique(ranking[..n])
    ensures forall e :: e in ranking[..n] ==> e in overall
    ensures forall i, j :: 0 <= i < j < n ==> RankedBefore(overall, ranking[..n][i], ranking[..n][j])
  {
    forall e | e in ranking[..n]
      ensures e in overall
    {
      assert e in ranking;
    }
  }

  /** The top is the first five of the ranking, or all of it. */
  lemma TopIsPrefix(overall: Entries)
    requires Unique(overall)
    ensures var ranking := SortDescending(SortByScore(overall));
            && Ranks(ranking, overall)
            && TopFive(overall) == ranking[..if |overall| < 5 then |overall| else 5]
  {
    RankingOrder(overall);
  }

  lemma TopTies(overall: Entries, top: Entries)
    requires Unique(overall) && top == TopFive(overall)
    ensures forall i, j :: 0 <= i < j < |top| ==> RankedBefore(overall, top[i], top[j])
    ensures forall e, t :: e in overall && e !in top && t in top ==> RankedBefore(overall, t, e)
    ensures Unique(top) && (forall e :: e in top ==> e in overall)
    ensures |top| == if |overall| < 5 then |overall| else 5
  {
    TopIsPrefix(overall);
    var ranking := SortDescending(SortByScore(overall));
    PrefixRanked(ranking, overall, |top|);
    forall e, t | e in overall && e !in top && t in top
      ensures RankedBefore(overall, t, e)
    {
      AfterPrefix(ranking, overall, |top|, e, t);
    }
  }

  /**
   Five or all: the best scores, in non-increasing order, ties by age; nobody outside beats one
   inside, and whoever ties with one inside is younger.
   */
  lemma TopFiveAreTheBest(overall: Entries, top: Entries)
    requires Unique(overall) && top == TopFive(overall)
    ensures |top| == (if |overall| < 5 then |overall| else 5) && Unique(top)
    ensures forall e :: e in top ==> e in overall
    ensures forall i, j :: 0 <= i < j < |top| ==>
              top[i].score > top[j].score
              || (top[i].score == top[j].score
                  && IndexOf(overall, top[i].member) < IndexOf(overall, top[j].member))
    ensures forall e, t :: e in overall && e !in top && t in top ==>
              t.score > e.score
              || (t.score == e.score && IndexOf(overall, t.member) < IndexOf(overall, e.member))
  {
    TopTies(overall, top);
    forall i, j | 0 <= i < j < |top|
      ensures top[i].score > top[j].score
              || (top[i].score == top[j].score
                  && IndexOf(overall, top[i].member) < IndexOf(overall, top[j].member))
    {
      assert RankedBefore(overall, top[i], top[j]);
    }
    forall e, t | e in overall && e !in top && t in top
      ensures t.score > e.score
              || (t.score == e.score && IndexOf(overall, t.member) < IndexOf(overall, e.member))
    {
      assert RankedBefore(overall, t, e);
    }
  }

  /** The products of a ranking that still exist, in order. */
  function Listing(top: Entries, products: map<int, ProductInfo>): seq<TopSeller> {
    if top == [] then []
    else
      var id := top[|top| - 1].member;
      Listing(top[..|top| - 1], products)
      + if id in products then [TopSeller(id, products[id].name, products[id].price)] else []
  }

  /** Rows in the order of `top`, each a product of `top` that exists. */
  ghost predicate Ordered(rows: seq<TopSeller>, top: Entries, products: map<int, ProductInfo>) {
    && |rows| <= |top|
    && (forall i, j :: 0 <= i < j < |rows| ==> rows[i].id != rows[j].id)
    && (forall i, j :: 0 <= i < j < |rows| ==> ScoreOr0(top, rows[i].id) >= ScoreOr0(top, rows[j].id))
    && (forall i, j :: 0 <= i < j < |rows| ==> IndexOf(top, rows[i].id) < IndexOf(top, rows[j].id))
    && (forall i :: 0 <= i < |rows| ==>
          Has(top, rows[i].id) && rows[i].id in products
          && rows[i] == TopSeller(rows[i].id, products[rows[i].id].name, products[rows[i].id].price))
  }

  ghost predicate Listed(rows: seq<TopSeller>, id: int) {
    exists i :: 0 <= i < |rows| && rows[i].id == id
  }

  /** Adding the entry with the lowest score at the end changes nothing said about the others. */
  lemma LastEntry(top: Entries, id: int)
    requires Unique(top) && top != []
    requires forall i, j :: 0 <= i < j < |top| ==> top[i].score >= top[j].score
    ensures var before, last := top[..|top| - 1], top[|top| - 1];
            && (Has(top, id) <==> Has(before, id) || id == last.member)
            && (Has(before, id) ==> ScoreOr0(top, id) == ScoreOr0(before, id) >= last.score && id != last.member)
            && (Has(before, id) ==> IndexOf(top, id) == IndexOf(before, id) < |before|)
            && ScoreOr0(top, last.member) == last.score && IndexOf(top, last.member) == |before|
  {
    var n := |top| - 1;
    var before := top[..n];
    IndexOfAt(top, n);
    if Has(before, id) {
      var k := IndexOf(before, id);
      assert top[k] == before[k];
      IndexOfAt(top, k);
      IndexOfAt(before, k);
    }
    if Has(top, id) && IndexOf(top, id) < n {
      assert before[IndexOf(top, id)].member == id;
    }
  }

  lemma {:induction false} ListingOrdered(top: Entries, products: map<int, ProductInfo>)
    requires Unique(top)
    requires forall i, j :: 0 <= i < j < |top| ==> top[i].score >= top[j].score
    ensures Ordered(Listing(top, products), top, products)
  {
    if top != [] {
      ListingOrdered(top[..|top| - 1], products);
      forall id
        ensures Has(top[..|top| - 1], id) ==>
                  Has(top, id) && ScoreOr0(top, id) == ScoreOr0(top[..|top| - 1], id) >= top[|top| - 1].score
                  && id != top[|top| - 1].member
        ensures Has(top[..|top| - 1], id) ==> IndexOf(top, id) == IndexOf(top[..|top| - 1], id) < |top| - 1
        ensures IndexOf(top, top[|top| - 1].member) == |top| - 1
        ensures ScoreOr0(top, top[|top| - 1].member) == top[|top| - 1].score
        ensures Has(top, top[|top| - 1].member)
      {
        LastEntry(top, id);
        LastEntry(top, top[|top| - 1].member);
      }
    }
  }

  lemma {:induction false} ListingComplete(top: Entries, products: map<int, ProductInfo>, id: int)
    requires Unique(top)
    requires forall i, j :: 0 <= i < j < |top| ==> top[i].score >= top[j].score
    requires Has(top, id) && id in products
    ensures Listed(Listing(top, products), id)
  {
    if top != [] {
      var n := |top| - 1;
      var rows, rows' := Listing(top[..n], products), Listing(top, products);
      LastEntry(top, id);
      if id == top[n].member {
        assert rows'[|rows|].id == id;
      } else {
        ListingComplete(top[..n], products, id);
        var i :| 0 <= i < |rows| && rows[i].id == id;
        assert rows'[i].id == id;
      }
    }
  }

  /**
   The answer: at most five rows, no product twice, scores non-increasing, every row a product
   of the best five that exists, and every such product has its row.
   */
  lemma TopSellersAnswer(overall: Entries, products: map<int, ProductInfo>)
    requires Unique(overall)
    ensures var top := TopFive(overall);
            var rows := Listing(top, products);
            && |rows| <= 5
            && Ordered(rows, top, products)
            && (forall id :: id in products && Has(top, id) ==> Listed(rows, id))
  {
    TopFiveAreTheBest(overall, TopFive(overall));
    var top := TopFive(overall);
    ListingOrdered(top, products);
    forall id | id in products && Has(top, id)
      ensures Listed(Listing(top, products), id)
    {
      ListingComplete(top, products, id);
    }
  }

  // ----- the services

  /** Nothing but the cell of one key differs. */
  ghost predicate OnlyKeyChanged(before: Store, after: Store, key: Key) {
    forall k :: k != key ==> (k in after <==> k in before) && (k in before ==> after[k] == before[k])
  }

  lemma DayUntouched(before: Store, after: Store, dates: seq<int>, i: nat)
    requires OnlyKeyChanged(before, after, Overall) && i < |dates|
    ensures EntriesAt(after, Daily(dates[i])) == DaysAt(before, dates)[i]
  {
    var key := Daily(dates[i]);
    assert key != Overall;
  }

  lemma AddDaysOneMore(overall: Entries, days: seq<Entries>, i: nat)
    requires i < |days|
    ensures AddDays(overall, days[..i + 1]) == AddDay(AddDays(overall, days[..i]), days[i])
  {
    assert days[..i + 1][..i] == days[..i];
  }

  lemma RaiseAllOneMore(es: Entries, lines: seq<Item>, i: nat)
    requires i < |lines|
    ensures RaiseAll(es, lines[..i + 1]) == Raise(RaiseAll(es, lines[..i]), lines[i].productId, lines[i].quantity)
  {
    assert lines[..i + 1][..i] == lines[..i];
  }

  /** The pair at position `i` of the flat list is the next line of the walk. */
  lemma WalkOneMore(es: Entries, range: Entries, flat: seq<int>, i: nat)
    requires flat == Flatten(range) && i < |flat| && i % 2 == 0
    ensures |LinesOf(range)| == |range| && i / 2 < |range| && i + 2 <= |flat|
    ensures RaiseAll(es, LinesOf(range)[..(i + 2) / 2])
            == Raise(RaiseAll(es, LinesOf(range)[..i / 2]), flat[i], flat[i + 1])
  {
    FlattenLength(range);
    FlattenAt(range, i / 2);
    RaiseAllOneMore(es, LinesOf(range), i / 2);
  }

  /** The date key of a moment. */
  function DateOf(now: int): int {
    now / (24 * 60 * 60 * 1000)
  }

  ghost predicate KeptUntil(store: Store, key: Key, end: int) {
    key in store && store[key].expiresAt == end
  }

  class SalesRanking {
    const redis: RedisService

    constructor (redis: RedisService)
      ensures this.redis == redis
    {
      this.redis := redis;
    }

    ghost predicate Valid()
      reads redis
    {
      Typed(redis.testLocks)
    }

    ghost function At(key: Key): Entries
      reads redis
    {
      EntriesAt(redis.testLocks, key)
    }

    /** One score raised by a delta, read then written. */
    method RaiseScore(key: Key, member: int, delta: int, now: int)
      requires Valid() && (key.Daily? || key.Overall?)
      modifies redis
      ensures Valid() && OnlyKeyChanged(old(redis.testLocks), redis.testLocks, key)
      ensures key in redis.testLocks && At(key) == Raise(old(At(key)), member, delta)
    {
      RaiseMeaning(At(key), member, delta);
      var current := redis.Zscore(key, member);
      var added := redis.Zadd(key, (if current.Some? then current.value else 0) + delta, member, now);
    }

    /** After an order: the day's score of each product rises by what was ordered of it, kept for four more days. */
    method UpdateProductRanking(items: seq<Item>, now: int)
      requires Valid()
      modifies redis
      ensures Valid() && OnlyKeyChanged(old(redis.testLocks), redis.testLocks, Daily(now / 86400000))
      ensures At(Daily(now / 86400000)) == RaiseAll(old(At(Daily(now / 86400000))), items)
      ensures items != [] ==> KeptUntil(redis.testLocks, Daily(now / 86400000), now + 345600000)
      ensures items == [] ==> redis.testLocks == old(redis.testLocks)
    {
      var today := DateOf(now);
      ghost var before := At(Daily(today));
      for i := 0 to |items|
        invariant Valid() && OnlyKeyChanged(old(redis.testLocks), redis.testLocks, Daily(today))
        invariant At(Daily(today)) == RaiseAll(before, items[..i])
        invariant i > 0 ==> KeptUntil(redis.testLocks, Daily(today), now + 345600000)
        invariant i == 0 ==> redis.testLocks == old(redis.testLocks)
      {
        RaiseAllOneMore(before, items, i);
        RaiseScore(Daily(today), items[i].productId, items[i].quantity, now);
        var ok := redis.Expire(Daily(today), 4 * 24 * 60 * 60, now);
      }
      assert items[..|items|] == items;
    }

    /** Compensation: the day's scores that are present come down, not below 0. */
    method RestoreProductRanking(items: seq<Item>, now: int)
      requires Valid()
      modifies redis
      ensures Valid() && OnlyKeyChanged(old(redis.testLocks), redis.testLocks, Daily(now / 86400000))
      ensures At(Daily(now / 86400000)) == LowerAll(old(At(Daily(now / 86400000))), items)
    {
      var today := DateOf(now);
      ghost var before := At(Daily(today));
      for i := 0 to |items|
        invariant Valid() && OnlyKeyChanged(old(redis.testLocks), redis.testLocks, Daily(today))
        invariant At(Daily(today)) == LowerAll(before, items[..i])
      {
        assert items[..i + 1][..i] == items[..i];
        LowerMeaning(At(Daily(today)), items[i].productId, items[i].quantity);
        var current := redis.Zscore(Daily(today), items[i].productId);
        if current.Some? {
          var added := redis.Zadd(Daily(today), Max(0, current.value - items[i].quantity), items[i].productId, now);
        }
      }
      assert items[..|items|] == items;
    }

    /** A flat member/score list walked in steps of two. */
    method AddFlat(flat: seq<int>, ghost range: Entries, now: int)
      requires Valid() && flat == Flatten(range)
      modifies redis
      ensures Valid() && OnlyKeyChanged(old(redis.testLocks), redis.testLocks, Overall)
      ensures At(Overall) == RaiseAll(old(At(Overall)), LinesOf(range))
    {
      ghost var before, lines := At(Overall), LinesOf(range);
      FlattenLength(range);
      var i := 0;
      while i < |flat|
        invariant 0 <= i <= |flat| && i % 2 == 0
        invariant Valid() && OnlyKeyChanged(old(redis.testLocks), redis.testLocks, Overall)
        invariant At(Overall) == RaiseAll(before, lines[..i / 2])
      {
        WalkOneMore(before, range, flat, i);
        RaiseScore(Overall, flat[i], flat[i + 1], now);
        i := i + 2;
      }
      assert lines[..|range|] == lines;
    }

    /** One day's ranking added to the overall one. */
    method AddDailyRanking(date: int, now: int)
      requires Valid()
      modifies redis
      ensures Valid() && OnlyKeyChanged(old(redis.testLocks), redis.testLocks, Overall)
      ensures At(Overall) == AddDay(old(At(Overall)), old(At(Daily(date))))
    {
      FullRange(At(Daily(date)));
      var dailyRankings := redis.Zrange(Daily(date), 0, -1, true);
      AddFlat(dailyRankings, SortByScore(At(Daily(date))), now);
    }

    /** The daily rankings of some dates added to the overall one, one after another. */
    method AddDailyRankings(dates: seq<int>, now: int)
      requires Valid()
      modifies redis
      ensures Valid() && OnlyKeyChanged(old(redis.testLocks), redis.testLocks, Overall)
      ensures At(Overall) == AddDays(old(At(Overall)), old(DaysAt(redis.testLocks, dates)))
    {
      ghost var before, days := At(Overall), DaysAt(redis.testLocks, dates);
      for i := 0 to |dates|
        invariant Valid() && OnlyKeyChanged(old(redis.testLocks), redis.testLocks, Overall)
        invariant At(Overall) == AddDays(before, days[..i])
      {
        DayUntouched(old(redis.testLocks), redis.testLocks, dates, i);
        AddDaysOneMore(before, days, i);
        AddDailyRanking(dates[i], now);
      }
      assert days[..|dates|] == days;
    }

    /** The recalculation: three days up to today, added to the overall ranking, kept for three more days. */
    method RecalculateOverallRanking(now: int)
      requires Valid()
      modifies redis
      ensures Valid() && OnlyKeyChanged(old(redis.testLocks), redis.testLocks, Overall)
      ensures At(Overall) == AddDays(old(At(Overall)),
                                     [old(At(Daily(now / 86400000))), old(At(Daily(now / 86400000 - 1))),
                                      old(At(Daily(now / 86400000 - 2)))])
      ensures Overall in redis.testLocks ==> KeptUntil(redis.testLocks, Overall, now + 259200000)
    {
      var dates := [];
      for i := 0 to 3
        invariant dates == [now / 86400000, now / 86400000 - 1, now / 86400000 - 2][..i]
      {
        dates := dates + [DateOf(now - i * 24 * 60 * 60 * 1000)];
      }
      ghost var days := DaysAt(redis.testLocks, dates);
      assert days == [At(Daily(now / 86400000)), At(Daily(now / 86400000 - 1)), At(Daily(now / 86400000 - 2))];
      AddDailyRankings(dates, now);
      var ok := redis.Expire(Overall, 3 * 24 * 60 * 60, now);
    }

    /** Every midnight: the ranking of three days ago goes, then the overall one is recalculated. */
    method CleanupOldRankings(now: int)
      requires Valid()
      modifies redis
      ensures Valid()
      ensures Daily(now / 86400000 - 3) !in redis.testLocks
      ensures forall k :: k != Overall && k != Daily(now / 86400000 - 3) ==>
                (k in redis.testLocks <==> k in old(redis.testLocks))
                && (k in redis.testLocks ==> redis.testLocks[k] == old(redis.testLocks)[k])
      ensures At(Overall) == AddDays(old(At(Overall)),
                                     [old(At(Daily(now / 86400000))), old(At(Daily(now / 86400000 - 1))),
                                      old(At(Daily(now / 86400000 - 2)))])
    {
      var keys := [Daily(DateOf(now - 3 * 24 * 60 * 60 * 1000))];
      assert Elements(keys) == {Daily(now / 86400000 - 3)};
      var deletedCount := redis.Del(keys);
      RecalculateOverallRanking(now);
    }

    /** The top sellers; a failing product lookup is answered with an empty list. */
    method GetTopSellers(products: Option<map<int, ProductInfo>>) returns (rows: seq<TopSeller>)
      requires Valid()
      ensures rows == if products.None? then [] else Listing(TopFive(At(Overall)), products.value)
    {
      FullRange(At(Overall));
      var all := redis.Zrange(Overall, 0, -1, true);
      var rankings := Pairs(all, SortByScore(At(Overall)));
      var sorted := SortDescending(rankings);
      var top := sorted[..Min(TOP, |sorted|)];
      if products.None? {
        return [];
      }
      rows := MapRanking(top, products.value);
    }
  }

  /** Pairs up a flat member/score list. */
  method Pairs(flat: seq<int>, ghost range: Entries) returns (rankings: Entries)
    requires flat == Flatten(range)
    ensures rankings == range
  {
    FlattenLength(range);
    rankings := [];
    var i := 0;
    while i < |flat|
      invariant 0 <= i <= |flat| && i % 2 == 0
      invariant rankings == range[..i / 2]
    {
      FlattenAt(range, i / 2);
      rankings := rankings + [Entry(flat[i], flat[i + 1])];
      i := i + 2;
    }
  }

  /** Maps ids to products in ranking order and drops the ids without one. */
  method MapRanking(top: Entries, products: map<int, ProductInfo>) returns (rows: seq<TopSeller>)
    ensures rows == Listing(top, products)
  {
    rows := [];
    for k := 0 to |top|
      invariant rows == Listing(top[..k], products)
    {
      assert top[..k + 1][..k] == top[..k];
      var id := top[k].member;
      if id in products {
        rows := rows + [TopSeller(id, products[id].name, products[id].price)];
      }
    }
    assert top[..|top|] == top;
  }

  function DaysAt(store: Store, dates: seq<int>): seq<Entries> {
    seq(|dates|, (i: nat) requires i < |dates| => EntriesAt(store, Daily(dates[i])))
  }
}
