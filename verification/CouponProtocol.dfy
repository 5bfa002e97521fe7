/**
 First-come coupon issuance as a concurrent protocol. Any number of requests run the same
 program; every Redis command and the database insert is one atomic step, every `await` is a
 place where another request may run, and a request may stop for good before any step.
 */
module CouponProtocol {
  import opened Common

  /** The next thing a request does, or how it ended. */
  datatype Phase =
    | Checking       // reads the issued set
    | NotIssued      // reads the queue
    | NotQueued      // reads the end time
    | Admitted       // adds itself to the queue
    | Queued         // reads its rank
    | Ranked         // decrements the stock
    | Won            // saves the coupon
    | Saved          // adds itself to the issued set
    | InIssued       // writes its rank
    | RankWritten    // leaves the queue
    | Lost           // leaves the queue
    | Dequeued       // increments the stock back
    | Granted        // returned the coupon
    | SoldOut        // threw after its rollback
    | Rejected       // threw because a check failed
    | Refused        // threw at the save: unknown coupon type

  datatype Request = Request(user: int, phase: Phase, alive: bool)

  datatype Config = Config(initialStock: int, endTime: Option<int>, knownType: bool)

  /**
   Redis and the coupon table for one coupon type. `coupons` lists the requests in the order
   they saved. `decrs` and `rolledBack` are history: who decremented, in order, and who undid it.
   */
  datatype State = State(
    stock: int,
    queue: set<int>,
    issued: set<int>,
    ranked: set<int>,
    requests: seq<Request>,
    coupons: seq<nat>,
    decrs: seq<nat>,
    rolledBack: set<nat>)

  datatype Event =
    | Arrive(user: int)
    | Step(request: nat, now: int)
    | Crash(request: nat)

  predicate Ended(p: Phase) {
    p.Granted? || p.SoldOut? || p.Rejected? || p.Refused?
  }

  predicate InFlight(s: State, r: nat) {
    r < |s.requests| && s.requests[r].alive && !Ended(s.requests[r].phase)
  }

  function Start(c: Config): State {
    State(c.initialStock, {}, {}, {}, [], [], [], {})
  }

  function MoveTo(s: State, r: nat, p: Phase): State
    requires r < |s.requests|
  {
    s.(requests := s.requests[r := s.requests[r].(phase := p)])
  }

  /** One atomic step of a request in flight. */
  function StepRequest(c: Config, s: State, r: nat, now: int): State
    requires InFlight(s, r)
  {
    var u := s.requests[r].user;
    match s.requests[r].phase
    case Checking => MoveTo(s, r, if u in s.issued then Rejected else NotIssued)
    case NotIssued => MoveTo(s, r, if u in s.queue then Rejected else NotQueued)
    case NotQueued => MoveTo(s, r, if c.endTime.Some? && now > c.endTime.value then Rejected else Admitted)
    case Admitted => MoveTo(s.(queue := s.queue + {u}), r, Queued)
    case Queued => MoveTo(s, r, Ranked)
    case Ranked =>
      var remaining := s.stock - 1;
      MoveTo(s.(stock := remaining, decrs := s.decrs + [r]), r, if remaining < 0 then Lost else Won)
    case Won => if c.knownType then MoveTo(s.(coupons := s.coupons + [r]), r, Saved) else MoveTo(s, r, Refused)
    case Saved => MoveTo(s.(issued := s.issued + {u}), r, InIssued)
    case InIssued => MoveTo(s.(ranked := s.ranked + {u}), r, RankWritten)
    case RankWritten => MoveTo(s.(queue := s.queue - {u}), r, Granted)
    case Lost => MoveTo(s.(queue := s.queue - {u}), r, Dequeued)
    case Dequeued => MoveTo(s.(stock := s.stock + 1, rolledBack := s.rolledBack + {r}), r, SoldOut)
  }

  /** An event that is not possible leaves the state alone. */
  function Apply(c: Config, s: State, e: Event): State {
    match e
    case Arrive(u) => s.(requests := s.requests + [Request(u, Checking, true)])
    case Step(r, now) => if InFlight(s, r) then StepRequest(c, s, r, now) else s
    case Crash(r) => if InFlight(s, r) then s.(requests := s.requests[r := s.requests[r].(alive := false)]) else s
  }

  /** The state after an interleaving: any sequence of events whatsoever. */
  function After(c: Config, es: seq<Event>): State {
    if es == [] then Start(c) else Apply(c, After(c, es[..|es| - 1]), es[|es| - 1])
  }

  // ----- who wins

  predicate Wins(p: Phase) {
    p.Won? || p.Saved? || p.InIssued? || p.RankWritten? || p.Granted? || p.Refused?
  }

  predicate Loses(p: Phase) {
    p.Lost? || p.Dequeued? || p.SoldOut?
  }

  predicate HasSaved(p: Phase) {
    p.Saved? || p.InIssued? || p.RankWritten? || p.Granted?
  }

  ghost predicate StockInvariant(c: Config, s: State) {
    && NoDuplicates(s.decrs)
    && NoDuplicates(s.coupons)
    && (forall k :: 0 <= k < |s.decrs| ==> s.decrs[k] < |s.requests|)
    && (forall k :: 0 <= k < |s.coupons| ==> s.coupons[k] < |s.requests|)
    && (forall r: nat :: r < |s.requests| ==>
         (r in s.decrs <==> Wins(s.requests[r].phase) || Loses(s.requests[r].phase)))
    && (forall r: nat :: r < |s.requests| ==> (r in s.coupons <==> HasSaved(s.requests[r].phase)))
    && (forall k :: 0 <= k < |s.decrs| ==> (Wins(s.requests[s.decrs[k]].phase) <==> k < c.initialStock))
    && (forall r: nat :: r in s.rolledBack <==> r < |s.requests| && s.requests[r].phase.SoldOut?)
    && s.stock == c.initialStock - |s.decrs| + |s.rolledBack|
  }

  /** Rollbacks come only from requests that decremented after the stock was gone. */
  lemma RollbacksAreLate(c: Config, s: State)
    requires StockInvariant(c, s)
    ensures |s.rolledBack| <= Max(0, |s.decrs| - Max(0, c.initialStock))
  {
    var n := Min(Max(0, c.initialStock), |s.decrs|);
    var late := s.decrs[n..];
    forall r | r in s.rolledBack
      ensures r in Elements(late)
    {
      assert r in s.decrs;
      var k :| 0 <= k < |s.decrs| && s.decrs[k] == r;
      assert late[k - n] == r;
    }
    SubsetCardinality(s.rolledBack, Elements(late));
    ElementsBound(late);
  }

  lemma DecrKeepsStockInvariant(c: Config, s: State, r: nat, now: int)
    requires StockInvariant(c, s) && InFlight(s, r) && s.requests[r].phase.Ranked?
    ensures StockInvariant(c, StepRequest(c, s, r, now))
  {
    RollbacksAreLate(c, s);
    var s' := StepRequest(c, s, r, now);
    assert r !in s.decrs;
    assert s'.decrs[|s.decrs|] == r;
    assert forall k :: 0 <= k < |s.decrs| ==> s'.decrs[k] == s.decrs[k];
  }

  /** A step that touches neither the stock, the coupons nor a request's standing. */
  lemma QuietStepKeepsStockInvariant(c: Config, s: State, s': State, r: nat, q: Request)
    requires StockInvariant(c, s) && r < |s.requests|
    requires s' == s.(queue := s'.queue, issued := s'.issued, ranked := s'.ranked, requests := s.requests[r := q])
    requires var p := s.requests[r].phase;
             && Wins(p) == Wins(q.phase) && Loses(p) == Loses(q.phase)
             && HasSaved(p) == HasSaved(q.phase) && p.SoldOut? == q.phase.SoldOut?
    ensures StockInvariant(c, s')
  {
  }

  lemma SaveKeepsStockInvariant(c: Config, s: State, r: nat, now: int)
    requires StockInvariant(c, s) && InFlight(s, r) && s.requests[r].phase.Won? && c.knownType
    ensures StockInvariant(c, StepRequest(c, s, r, now))
  {
    var s' := StepRequest(c, s, r, now);
    assert r !in s.coupons;
    assert s'.coupons[|s.coupons|] == r;
  }

  lemma RollbackKeepsStockInvariant(c: Config, s: State, r: nat, now: int)
    requires StockInvariant(c, s) && InFlight(s, r) && s.requests[r].phase.Dequeued?
    ensures StockInvariant(c, StepRequest(c, s, r, now))
  {
    assert r !in s.rolledBack;
  }

  lemma StepKeepsStockInvariant(c: Config, s: State, r: nat, now: int)
    requires StockInvariant(c, s) && InFlight(s, r)
    ensures StockInvariant(c, StepRequest(c, s, r, now))
  {
    var p := s.requests[r].phase;
    if p.Ranked? {
      DecrKeepsStockInvariant(c, s, r, now);
    } else if p.Won? && c.knownType {
      SaveKeepsStockInvariant(c, s, r, now);
    } else if p.Dequeued? {
      RollbackKeepsStockInvariant(c, s, r, now);
    } else {
      var s' := StepRequest(c, s, r, now);
      QuietStepKeepsStockInvariant(c, s, s', r, s'.requests[r]);
    }
  }

  lemma ArriveKeepsStockInvariant(c: Config, s: State, u: int)
    requires StockInvariant(c, s)
    ensures StockInvariant(c, Apply(c, s, Arrive(u)))
  {
  }

  lemma StockInvariantStep(c: Config, s: State, e: Event)
    requires StockInvariant(c, s)
    ensures StockInvariant(c, Apply(c, s, e))
  {
    match e
    case Arrive(u) => ArriveKeepsStockInvariant(c, s, u);
    case Crash(r) =>
      if InFlight(s, r) {
        QuietStepKeepsStockInvariant(c, s, Apply(c, s, e), r, s.requests[r].(alive := false));
      }
    case Step(r, now) =>
      if InFlight(s, r) {
        StepKeepsStockInvariant(c, s, r, now);
      }
  }

  lemma {:induction false} StockInvariantHolds(c: Config, es: seq<Event>)
    ensures StockInvariant(c, After(c, es))
  {
    if es != [] {
      StockInvariantHolds(c, es[..|es| - 1]);
      StockInvariantStep(c, After(c, es[..|es| - 1]), es[|es| - 1]);
    }
  }

  /**
   Exact first-come, in every interleaving with any crashes: the winners are the first N
   requests to decrement, everybody later loses, and only winners ever save a coupon.
   */
  lemma FirstComeFirstServed(c: Config, es: seq<Event>)
    ensures var s := After(c, es);
            && (forall k :: 0 <= k < |s.decrs| ==>
                  && s.decrs[k] < |s.requests|
                  && (Wins(s.requests[s.decrs[k]].phase) <==> k < c.initialStock)
                  && (Loses(s.requests[s.decrs[k]].phase) <==> k >= c.initialStock))
            && (forall r :: r in s.coupons ==> exists k :: 0 <= k < |s.decrs| && k < c.initialStock && s.decrs[k] == r)
            && NoDuplicates(s.coupons)
            && |s.coupons| <= Max(0, c.initialStock)
  {
    StockInvariantHolds(c, es);
    var s := After(c, es);
    forall k | 0 <= k < |s.decrs|
      ensures Loses(s.requests[s.decrs[k]].phase) <==> k >= c.initialStock
    {
      assert s.decrs[k] in s.decrs;
    }
    forall r | r in s.coupons
      ensures exists k :: 0 <= k < |s.decrs| && k < c.initialStock && s.decrs[k] == r
    {
      assert r in s.decrs;
      var k :| 0 <= k < |s.decrs| && s.decrs[k] == r;
    }
    var first := s.decrs[..Min(Max(0, c.initialStock), |s.decrs|)];
    forall r | r in Elements(s.coupons)
      ensures r in Elements(first)
    {
      var k :| 0 <= k < |s.decrs| && k < c.initialStock && s.decrs[k] == r;
      assert first[k] == r;
    }
    SubsetCardinality(Elements(s.coupons), Elements(first));
    ElementsBound(first);
    NoDuplicatesCardinality(s.coupons);
  }

  // ----- where every unit of stock is

  /** Winners that have not saved: on their way, crashed, or refused for an unknown type. */
  function Unsaved(s: State): set<nat> {
    set r: nat | r < |s.requests| && (s.requests[r].phase.Won? || s.requests[r].phase.Refused?)
  }

  /** Losers that have not given their unit back: on their way or crashed. */
  function Owing(s: State): set<nat> {
    set r: nat | r < |s.requests| && (s.requests[r].phase.Lost? || s.requests[r].phase.Dequeued?)
  }

  /** A decrementer has saved, or not yet, or owes its unit, or gave it back: one of the four. */
  lemma DecrementerStanding(c: Config, s: State, r: nat)
    requires StockInvariant(c, s)
    ensures r in s.decrs <==> r in s.coupons || r in Unsaved(s) || r in Owing(s) || r in s.rolledBack
    ensures r in s.coupons ==> r !in Unsaved(s) && r !in Owing(s) && r !in s.rolledBack
    ensures r in s.rolledBack ==> r !in Unsaved(s) && r !in Owing(s)
  {
    if r >= |s.requests| {
      assert r !in s.decrs && r !in s.coupons;
    }
  }

  lemma DecrementersPartition(c: Config, s: State)
    requires StockInvariant(c, s)
    ensures Elements(s.decrs) == Elements(s.coupons) + Unsaved(s) + Owing(s) + s.rolledBack
    ensures Elements(s.coupons) !! Unsaved(s) !! Owing(s) !! s.rolledBack
  {
    var unsaved, owing := Unsaved(s), Owing(s);
    assert unsaved !! owing;
    forall r: nat
      ensures r in s.decrs <==> r in s.coupons || r in unsaved || r in owing || r in s.rolledBack
      ensures r in s.coupons ==> r !in unsaved && r !in owing && r !in s.rolledBack
      ensures r in s.rolledBack ==> r !in unsaved && r !in owing
    {
      DecrementerStanding(c, s, r);
    }
  }

  lemma DisjointCardinality<T>(a: set<T>, b: set<T>, c: set<T>, d: set<T>)
    requires a !! b !! c !! d
    ensures |a + b + c + d| == |a| + |b| + |c| + |d|
  {
    assert |a + b + c + d| == |a + b + c| + |d|;
  }

  /** In every state, with any crashes: stock, coupons and requests in between add up to N. */
  lemma StockConservation(c: Config, es: seq<Event>)
    ensures var s := After(c, es);
            s.stock + |s.coupons| + |Unsaved(s)| + |Owing(s)| == c.initialStock
  {
    StockInvariantHolds(c, es);
    var s := After(c, es);
    NoDuplicatesCardinality(s.decrs);
    NoDuplicatesCardinality(s.coupons);
    DecrementersPartition(c, s);
    DisjointCardinality(Elements(s.coupons), Unsaved(s), Owing(s), s.rolledBack);
  }

  /** No request is under way and none was cut short by a crash or refused at the save. */
  ghost predicate Settled(s: State) {
    forall r: nat :: r < |s.requests| ==>
      var q := s.requests[r];
      q.alive && (q.phase.Granted? || q.phase.SoldOut? || q.phase.Rejected?)
  }

  predicate Queueing(p: Phase) {
    p.Queued? || p.Ranked? || p.Won? || p.Saved? || p.InIssued? || p.RankWritten? || p.Lost? || p.Refused?
  }

  /** Whoever stands in the queue has a request between joining and leaving it. */
  ghost predicate QueueExplained(s: State) {
    forall u :: u in s.queue ==>
      exists r: nat :: r < |s.requests| && s.requests[r].user == u && Queueing(s.requests[r].phase)
  }

  /** A step moves a request out of the queueing phases only by removing its user from the queue. */
  lemma QueueExplainedStep(c: Config, s: State, e: Event)
    requires QueueExplained(s)
    ensures QueueExplained(Apply(c, s, e))
  {
    var s' := Apply(c, s, e);
    forall u | u in s'.queue
      ensures exists r: nat :: r < |s'.requests| && s'.requests[r].user == u && Queueing(s'.requests[r].phase)
    {
      if u in s.queue {
        var r: nat :| r < |s.requests| && s.requests[r].user == u && Queueing(s.requests[r].phase);
        assert s'.requests[r].user == u && Queueing(s'.requests[r].phase);
      } else {
        assert e.Step?;
        assert s'.requests[e.request].user == u && Queueing(s'.requests[e.request].phase);
      }
    }
  }

  lemma {:induction false} QueueExplainedHolds(c: Config, es: seq<Event>)
    ensures QueueExplained(After(c, es))
  {
    if es != [] {
      QueueExplainedHolds(c, es[..|es| - 1]);
      QueueExplainedStep(c, After(c, es[..|es| - 1]), es[|es| - 1]);
    }
  }

  /** At rest nothing is lost, even when one user's requests overlapped. */
  lemma SettledAccounts(c: Config, es: seq<Event>)
    requires Settled(After(c, es))
    ensures var s := After(c, es);
            && s.stock == c.initialStock - |s.coupons|
            && (c.initialStock >= 0 ==> s.stock >= 0)
            && s.queue == {}
  {
    var s := After(c, es);
    StockConservation(c, es);
    FirstComeFirstServed(c, es);
    QueueExplainedHolds(c, es);
    assert Unsaved(s) == {} && Owing(s) == {};
    assert forall r: nat :: r < |s.requests| ==> !Queueing(s.requests[r].phase);
    assert forall u :: u !in s.queue;
  }

  /** A request that crashed, or was refused at the save. */
  predicate CutShort(s: State, r: nat) {
    r < |s.requests| && (!s.requests[r].alive || s.requests[r].phase.Refused?)
  }

  /**
   At rest, whatever crashed or was refused: no unit is missing exactly when no winner is left
   unsaved and no loser owes its unit; those, and whoever stays queued, were cut short.
   */
  lemma AtRestExactly(c: Config, es: seq<Event>)
    requires forall r: nat :: !InFlight(After(c, es), r)
    ensures var s := After(c, es);
            && (s.stock == c.initialStock - |s.coupons| <==> Unsaved(s) == {} && Owing(s) == {})
            && s.stock <= c.initialStock - |s.coupons|
            && (forall r :: r in Unsaved(s) + Owing(s) ==> CutShort(s, r))
            && (forall u :: u in s.queue ==> exists r: nat :: CutShort(s, r) && s.requests[r].user == u)
  {
    var s := After(c, es);
    StockConservation(c, es);
    QueueExplainedHolds(c, es);
    forall r: nat | r < |s.requests| && !CutShort(s, r)
      ensures Ended(s.requests[r].phase) && !s.requests[r].phase.Refused?
    {
      assert !InFlight(s, r);
    }
    forall u | u in s.queue
      ensures exists r: nat :: CutShort(s, r) && s.requests[r].user == u
    {
      var r: nat :| r < |s.requests| && s.requests[r].user == u && Queueing(s.requests[r].phase);
      assert CutShort(s, r);
    }
  }

  // ----- one coupon per user

  function InFlightOf(s: State, u: int): set<nat> {
    set r: nat | r < |s.requests| && InFlight(s, r) && s.requests[r].user == u
  }

  /** Throughout the run no user has more than `limit` requests in flight. */
  ghost predicate WithinLimit(c: Config, es: seq<Event>, limit: nat) {
    forall k, u :: 0 <= k <= |es| ==> |InFlightOf(After(c, es[..k]), u)| <= limit
  }

  ghost predicate OnePerUser(s: State) {
    forall i, j :: 0 <= i < j < |s.coupons| && s.coupons[i] < |s.requests| && s.coupons[j] < |s.requests| ==>
      s.requests[s.coupons[i]].user != s.requests[s.coupons[j]].user
  }

  ghost predicate DistinctInFlight(s: State) {
    forall q: nat, r: nat :: InFlight(s, q) && InFlight(s, r) && q != r ==> s.requests[q].user != s.requests[r].user
  }

  /** Between passing the queue check and saving, or giving up. */
  predicate Cleared(p: Phase) {
    p.NotQueued? || p.Admitted? || p.Queued? || p.Ranked? || p.Won? || p.Lost?
  }

  predicate HoldsPlace(p: Phase) {
    p.Queued? || p.Ranked? || p.Won? || p.Saved? || p.InIssued? || p.RankWritten? || p.Lost?
  }

  ghost predicate Holder(s: State, u: int) {
    exists k :: 0 <= k < |s.coupons| && s.coupons[k] < |s.requests| && s.requests[s.coupons[k]].user == u
  }

  ghost predicate RequestSound(s: State, r: nat)
    requires r < |s.requests|
  {
    var u, p := s.requests[r].user, s.requests[r].phase;
    && (p.NotIssued? ==> u !in s.issued)
    && (Cleared(p) ==> !Holder(s, u))
    && (HoldsPlace(p) ==> u in s.queue)
    && (p.InIssued? || p.RankWritten? ==> u in s.issued)
  }

  /** Every coupon's user stays marked, and a request past the checks has no coupon yet. */
  ghost predicate UserInvariant(s: State) {
    && (forall k :: 0 <= k < |s.coupons| ==> s.coupons[k] < |s.requests|)
    && OnePerUser(s)
    && (forall u :: Holder(s, u) ==> u in s.queue || u in s.issued)
    && (forall r: nat :: InFlight(s, r) ==> RequestSound(s, r))
  }

  /** Holders change only by a save. */
  lemma HoldersKept(s: State, s': State, u: int)
    requires forall k :: 0 <= k < |s.coupons| ==> s.coupons[k] < |s.requests|
    requires s'.coupons == s.coupons && |s.requests| <= |s'.requests|
    requires forall r: nat :: r < |s.requests| ==> s'.requests[r].user == s.requests[r].user
    ensures Holder(s', u) <==> Holder(s, u)
  {
    if Holder(s, u) {
      var k :| 0 <= k < |s.coupons| && s.coupons[k] < |s.requests| && s.requests[s.coupons[k]].user == u;
      assert s'.requests[s'.coupons[k]].user == u;
    }
    if Holder(s', u) {
      var k :| 0 <= k < |s'.coupons| && s'.coupons[k] < |s'.requests| && s'.requests[s'.coupons[k]].user == u;
      assert s.requests[s.coupons[k]].user == u;
    }
  }

  lemma SaveMakesHolder(s: State, s': State, r: nat, p: Phase, u: int)
    requires forall k :: 0 <= k < |s.coupons| ==> s.coupons[k] < |s.requests|
    requires r < |s.requests| && s' == MoveTo(s.(coupons := s.coupons + [r]), r, p)
    ensures Holder(s', u) <==> Holder(s, u) || u == s.requests[r].user
  {
    if Holder(s, u) {
      var k :| 0 <= k < |s.coupons| && s.coupons[k] < |s.requests| && s.requests[s.coupons[k]].user == u;
      assert s'.coupons[k] == s.coupons[k] && s'.requests[s'.coupons[k]].user == u;
    }
    if u == s.requests[r].user {
      assert s'.requests[s'.coupons[|s.coupons|]].user == u;
    }
    if Holder(s', u) && u != s.requests[r].user {
      var k :| 0 <= k < |s'.coupons| && s'.coupons[k] < |s'.requests| && s'.requests[s'.coupons[k]].user == u;
      assert s.requests[s.coupons[k]].user == u;
    }
  }

  lemma SaveKeepsUserInvariant(c: Config, s: State, r: nat, now: int)
    requires UserInvariant(s) && DistinctInFlight(s)
    requires InFlight(s, r) && s.requests[r].phase.Won? && c.knownType
    ensures UserInvariant(StepRequest(c, s, r, now))
  {
    var s' := StepRequest(c, s, r, now);
    forall u
      ensures Holder(s', u) <==> Holder(s, u) || u == s.requests[r].user
    {
      SaveMakesHolder(s, s', r, Saved, u);
    }
    forall i, j | 0 <= i < j < |s'.coupons| && s'.coupons[i] < |s'.requests| && s'.coupons[j] < |s'.requests|
      ensures s'.requests[s'.coupons[i]].user != s'.requests[s'.coupons[j]].user
    {
      assert s.requests[s.coupons[i]].user == s'.requests[s'.coupons[i]].user;
      if j == |s.coupons| {
        assert Holder(s, s.requests[s.coupons[i]].user);
      } else {
        assert s'.coupons[j] == s.coupons[j];
      }
    }
    forall q: nat | InFlight(s', q)
      ensures RequestSound(s', q)
    {
      assert InFlight(s, q) && RequestSound(s, q);
    }
  }

  lemma QuietRequest(c: Config, s: State, r: nat, now: int, q: nat)
    requires UserInvariant(s) && DistinctInFlight(s)
    requires InFlight(s, r) && !(s.requests[r].phase.Won? && c.knownType)
    requires InFlight(s, q) && InFlight(StepRequest(c, s, r, now), q)
    requires Holder(StepRequest(c, s, r, now), s.requests[q].user) == Holder(s, s.requests[q].user)
    ensures RequestSound(StepRequest(c, s, r, now), q)
  {
    assert RequestSound(s, q) && RequestSound(s, r);
  }

  lemma QuietKeepsUserInvariant(c: Config, s: State, r: nat, now: int)
    requires UserInvariant(s) && DistinctInFlight(s)
    requires InFlight(s, r) && !(s.requests[r].phase.Won? && c.knownType)
    ensures UserInvariant(StepRequest(c, s, r, now))
  {
    var s' := StepRequest(c, s, r, now);
    forall u
      ensures Holder(s', u) <==> Holder(s, u)
    {
      HoldersKept(s, s', u);
    }
    assert OnePerUser(s') by {
      forall i, j | 0 <= i < j < |s'.coupons| && s'.coupons[i] < |s'.requests| && s'.coupons[j] < |s'.requests|
        ensures s'.requests[s'.coupons[i]].user != s'.requests[s'.coupons[j]].user
      {
        assert s.requests[s.coupons[i]].user != s.requests[s.coupons[j]].user;
      }
    }
    forall q: nat | InFlight(s', q)
      ensures RequestSound(s', q)
    {
      assert InFlight(s, q);
      HoldersKept(s, s', s.requests[q].user);
      QuietRequest(c, s, r, now, q);
    }
  }

  lemma UserInvariantStep(c: Config, s: State, e: Event)
    requires UserInvariant(s) && DistinctInFlight(s)
    ensures UserInvariant(Apply(c, s, e))
  {
    var s' := Apply(c, s, e);
    if e.Step? {
      if InFlight(s, e.request) {
        if s.requests[e.request].phase.Won? && c.knownType {
          SaveKeepsUserInvariant(c, s, e.request, e.now);
        } else {
          QuietKeepsUserInvariant(c, s, e.request, e.now);
        }
      }
    } else {
      forall u
        ensures Holder(s', u) <==> Holder(s, u)
      {
        HoldersKept(s, s', u);
      }
      forall r: nat | InFlight(s', r)
        ensures RequestSound(s', r)
      {
        if r < |s.requests| {
          assert InFlight(s, r) && s'.requests[r] == s.requests[r];
          assert RequestSound(s, r);
        }
      }
      assert OnePerUser(s') by {
        forall i, j | 0 <= i < j < |s'.coupons| && s'.coupons[i] < |s'.requests| && s'.coupons[j] < |s'.requests|
          ensures s'.requests[s'.coupons[i]].user != s'.requests[s'.coupons[j]].user
        {
          assert s.requests[s.coupons[i]].user != s.requests[s.coupons[j]].user;
        }
      }
    }
  }

  lemma LimitOneIsDistinct(s: State)
    requires forall u :: |InFlightOf(s, u)| <= 1
    ensures DistinctInFlight(s)
  {
    forall q: nat, r: nat | InFlight(s, q) && InFlight(s, r) && q != r
      ensures s.requests[q].user != s.requests[r].user
    {
      var u := s.requests[q].user;
      if s.requests[r].user == u {
        SubsetCardinality({q, r}, InFlightOf(s, u));
      }
    }
  }

  /**
   Crash-safe at most once: if no user ever has two requests in flight, no user ever has two
   coupons, whichever requests stop and wherever they stop.
   */
  lemma {:induction false} AtMostOncePerUser(c: Config, es: seq<Event>)
    requires WithinLimit(c, es, 1)
    ensures UserInvariant(After(c, es))
    ensures OnePerUser(After(c, es))
  {
    if es != [] {
      var before := es[..|es| - 1];
      forall k, u | 0 <= k <= |before|
        ensures |InFlightOf(After(c, before[..k]), u)| <= 1
      {
        assert before[..k] == es[..k];
      }
      AtMostOncePerUser(c, before);
      forall u
        ensures |InFlightOf(After(c, before), u)| <= 1
      {
        assert before[..|before|] == before;
      }
      LimitOneIsDistinct(After(c, before));
      UserInvariantStep(c, After(c, before), es[|es| - 1]);
    }
  }

  lemma AfterAppend(c: Config, es: seq<Event>, e: Event)
    ensures After(c, es + [e]) == Apply(c, After(c, es), e)
  {
    assert (es + [e])[..|es|] == es;
  }

  function Checks(r: nat, t: int): seq<Event> {
    [Step(r, t), Step(r, t), Step(r, t)]
  }

  function Purchase(r: nat, t: int): seq<Event> {
    [Step(r, t), Step(r, t), Step(r, t), Step(r, t)]
  }

  /** A first request by an unmarked user passes all three checks. */
  lemma ChecksPass(c: Config, es: seq<Event>, r: nat, t: int)
    requires var s := After(c, es);
             && InFlight(s, r) && s.requests[r].phase.Checking?
             && s.requests[r].user !in s.issued && s.requests[r].user !in s.queue
    requires c.endTime.Some? ==> t <= c.endTime.value
    ensures After(c, es + Checks(r, t)) == MoveTo(After(c, es), r, Admitted)
  {
    var e := Step(r, t);
    var s := After(c, es);
    AfterAppend(c, es, e);
    AfterAppend(c, es + [e], e);
    AfterAppend(c, es + [e] + [e], e);
    assert es + [e, e, e] == es + [e] + [e] + [e];
    assert MoveTo(MoveTo(s, r, NotIssued), r, NotQueued) == MoveTo(s, r, NotQueued);
    assert MoveTo(MoveTo(s, r, NotQueued), r, Admitted) == MoveTo(s, r, Admitted);
  }

  function Bought(s: State, r: nat): State
    requires r < |s.requests|
  {
    MoveTo(s.(queue := s.queue + {s.requests[r].user}, stock := s.stock - 1,
              decrs := s.decrs + [r], coupons := s.coupons + [r]), r, Saved)
  }

  lemma AfterTwo(c: Config, es: seq<Event>, es': seq<Event>, e: Event)
    requires es' == es + [e, e]
    ensures After(c, es') == Apply(c, Apply(c, After(c, es), e), e)
  {
    var mid := es + [e];
    AfterAppend(c, es, e);
    AfterAppend(c, mid, e);
    assert mid + [e] == es';
  }

  /** An admitted request with stock left saves four steps later. */
  lemma AdmittedSaves(c: Config, s: State, r: nat, t: int)
    requires InFlight(s, r) && s.requests[r].phase.Admitted? && s.stock >= 1
    requires c.knownType
    ensures var e := Step(r, t);
            Apply(c, Apply(c, Apply(c, Apply(c, s, e), e), e), e) == Bought(s, r)
  {
    var e := Step(r, t);
    var q := s.(queue := s.queue + {s.requests[r].user});
    var d := q.(stock := q.stock - 1, decrs := q.decrs + [r]);
    var s1 := Apply(c, s, e);
    assert s1 == MoveTo(q, r, Queued);
    var s2 := Apply(c, s1, e);
    assert s2 == MoveTo(q, r, Ranked);
    var s3 := Apply(c, s2, e);
    assert s3 == MoveTo(d, r, Won);
  }

  lemma SaveFromAdmitted(c: Config, es: seq<Event>, es': seq<Event>, r: nat, t: int)
    requires es' == es + Purchase(r, t) && c.knownType
    requires var s := After(c, es);
             InFlight(s, r) && s.requests[r].phase.Admitted? && s.stock >= 1
    ensures After(c, es') == Bought(After(c, es), r)
  {
    var e := Step(r, t);
    var mid := es + [e, e];
    AfterTwo(c, es, mid, e);
    AfterTwo(c, mid, es', e);
    AdmittedSaves(c, After(c, es), r, t);
  }

  /** Two requests of one user that both check before either joins the queue. */
  function Overlap(u: int, t: int): seq<Event> {
    [Arrive(u), Arrive(u)] + Checks(0, t) + Checks(1, t) + Purchase(0, t) + Purchase(1, t)
  }

  lemma TwoArrivals(c: Config, u: int)
    ensures After(c, [Arrive(u), Arrive(u)]) == TwoRequests(c, u, Checking, Checking)
  {
    AfterAppend(c, [Arrive(u)], Arrive(u));
    AfterAppend(c, [], Arrive(u));
    assert [Arrive(u)] + [Arrive(u)] == [Arrive(u), Arrive(u)];
    assert [] + [Arrive(u)] == [Arrive(u)];
  }

  function TwoRequests(c: Config, u: int, p: Phase, q: Phase): State {
    Start(c).(requests := [Request(u, p, true), Request(u, q, true)])
  }

  lemma BothCheck(c: Config, es: seq<Event>, u: int, t: int)
    requires c.endTime.Some? ==> t <= c.endTime.value
    requires After(c, es) == TwoRequests(c, u, Checking, Checking)
    ensures After(c, es + Checks(0, t) + Checks(1, t)) == TwoRequests(c, u, Admitted, Admitted)
  {
    ChecksPass(c, es, 0, t);
    var es' := es + Checks(0, t);
    assert After(c, es') == TwoRequests(c, u, Admitted, Checking);
    ChecksPass(c, es', 1, t);
  }

  lemma BothPurchase(c: Config, es: seq<Event>, es': seq<Event>, es'': seq<Event>, u: int, t: int)
    requires c.initialStock >= 2 && c.knownType
    requires es' == es + Purchase(0, t) && es'' == es' + Purchase(1, t)
    requires After(c, es) == TwoRequests(c, u, Admitted, Admitted)
    ensures var s := After(c, es'');
            s.coupons == [0, 1] && s.requests == [Request(u, Saved, true), Request(u, Saved, true)]
  {
    assert Bought(TwoRequests(c, u, Admitted, Admitted), 0).requests
           == [Request(u, Saved, true), Request(u, Admitted, true)];
    SaveFromAdmitted(c, es, es', 0, t);
    SaveFromAdmitted(c, es', es'', 1, t);
  }

  lemma OverlapIssuesTwice(c: Config, u: int, t: int)
    requires c.initialStock >= 2 && c.knownType
    requires c.endTime.Some? ==> t <= c.endTime.value
    ensures var s := After(c, Overlap(u, t));
            |s.requests| == 2 && s.coupons == [0, 1] && s.requests[0].user == s.requests[1].user == u
  {
    TwoArrivals(c, u);
    var es := [Arrive(u), Arrive(u)];
    BothCheck(c, es, u, t);
    var checked := es + Checks(0, t) + Checks(1, t);
    BothPurchase(c, checked, checked + Purchase(0, t), checked + Purchase(0, t) + Purchase(1, t), u, t);
  }

  lemma {:induction false} RequestsOnlyGrow(c: Config, es: seq<Event>, k: nat)
    requires k <= |es|
    ensures |After(c, es[..k]).requests| <= |After(c, es).requests|
  {
    if k == |es| {
      assert es[..k] == es;
    } else {
      RequestsOnlyGrow(c, es[..|es| - 1], k);
      assert es[..|es| - 1][..k] == es[..k];
    }
  }

  lemma InFlightBound(s: State, u: int)
    ensures |InFlightOf(s, u)| <= |s.requests|
  {
    var ids := seq(|s.requests|, (i: nat) => i);
    assert forall r :: r in InFlightOf(s, u) ==> ids[r] in Elements(ids);
    SubsetCardinality(InFlightOf(s, u), Elements(ids));
    ElementsBound(ids);
  }

  /** The number of requests a user may have in flight decides, exactly. */
  lemma AtMostOnceExactly(c: Config, limit: nat)
    ensures (forall es :: WithinLimit(c, es, limit) ==> OnePerUser(After(c, es)))
            <==> (limit <= 1 || c.initialStock <= 1 || !c.knownType)
  {
    if limit <= 1 || c.initialStock <= 1 || !c.knownType {
      forall es | WithinLimit(c, es, limit)
        ensures OnePerUser(After(c, es))
      {
        FirstComeFirstServed(c, es);
        if !c.knownType {
          UnknownTypeSavesNothing(c, es);
        } else if c.initialStock > 1 {
          assert WithinLimit(c, es, 1);
          AtMostOncePerUser(c, es);
        }
      }
    } else {
      var t := if c.endTime.Some? then c.endTime.value else 0;
      var es := Overlap(0, t);
      OverlapIssuesTwice(c, 0, t);
      forall k, u | 0 <= k <= |es|
        ensures |InFlightOf(After(c, es[..k]), u)| <= limit
      {
        RequestsOnlyGrow(c, es, k);
        InFlightBound(After(c, es[..k]), u);
      }
      var s := After(c, es);
      assert s.coupons[0] == 0 && s.coupons[1] == 1;
      assert !OnePerUser(s);
      assert WithinLimit(c, es, limit);
    }
  }

  lemma {:induction false} UnknownTypeSavesNothing(c: Config, es: seq<Event>)
    requires !c.knownType
    ensures After(c, es).coupons == []
  {
    if es != [] {
      UnknownTypeSavesNothing(c, es[..|es| - 1]);
    }
  }
}
