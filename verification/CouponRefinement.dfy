/**
 The two views of coupon issuance agree: a request of the concurrent protocol that nobody
 interrupts does to Redis and to the coupons exactly what `Issue` says.
 */
module CouponRefinement {
  import opened Common
  import opened SortedSets
  import opened RedisStore
  import opened CouponService
  import opened CouponRuns
  import Protocol = CouponProtocol

  /** The longest request takes ten steps. */
  const LONGEST := 10

  function Steps(c: Protocol.Config, s: Protocol.State, r: nat, now: int, n: nat): Protocol.State
    decreases n
  {
    if n == 0 then s else Steps(c, Protocol.Apply(c, s, Protocol.Step(r, now)), r, now, n - 1)
  }

  /** A request arrives and gets `n` turns with nobody in between. */
  function RunAlone(c: Protocol.Config, s: Protocol.State, user: int, now: int, n: nat): Protocol.State {
    Steps(c, Protocol.Apply(c, s, Protocol.Arrive(user)), |s.requests|, now, n)
  }

  function UsersOf(s: Protocol.State): seq<int>
    requires forall k :: 0 <= k < |s.coupons| ==> s.coupons[k] < |s.requests|
  {
    seq(|s.coupons|, (k: nat) requires k < |s.coupons| => s.requests[s.coupons[k]].user)
  }

  /** A sorted set and a set with the same members, and no score that reads as absent. */
  ghost predicate SameMembers(es: Entries, members: set<int>) {
    && Unique(es)
    && (forall i :: 0 <= i < |es| ==> es[i].score != 0)
    && (forall u :: u in members <==> Has(es, u))
  }

  /** The protocol's state and the stored state of one coupon type describe the same world. */
  ghost predicate Mirrors(s: Protocol.State, v: Issuance) {
    && s.stock == v.stock
    && SameMembers(v.queue, s.queue)
    && SameMembers(v.issued, s.issued)
    && Unique(v.ranks) && (forall u :: u in s.ranked <==> Has(v.ranks, u))
    && (forall k :: 0 <= k < |s.coupons| ==> s.coupons[k] < |s.requests|)
    && UsersOf(s) == v.holders
  }

  function PhaseFor(o: Outcome): Protocol.Phase {
    match o
    case Issued(_) => Protocol.Granted
    case NotAvailable => Protocol.Rejected
    case Exhausted => Protocol.SoldOut
    case UnknownType => Protocol.Refused
  }

  lemma Seen(es: Entries, members: set<int>, user: int)
    requires SameMembers(es, members)
    ensures ScoreSeen(es, user).Some? <==> user in members
  {
  }

  lemma PutMember(es: Entries, members: set<int>, user: int, score: int)
    requires SameMembers(es, members) && score != 0
    ensures SameMembers(Put(es, user, score), members + {user})
  {
    PutMeaning(es, user, score);
  }

  lemma DeleteMember(es: Entries, members: set<int>, user: int)
    requires SameMembers(es, members)
    ensures SameMembers(Delete(es, user), members - {user})
  {
    DeleteMeaning(es, user);
  }

  lemma MovedTwice(s: Protocol.State, r: nat, p: Protocol.Phase, q: Protocol.Phase)
    requires r < |s.requests|
    ensures Protocol.MoveTo(s, r, p).requests[r := s.requests[r].(phase := q)] == Protocol.MoveTo(s, r, q).requests
  {
  }

  lemma {:induction false} Rest(c: Protocol.Config, s: Protocol.State, r: nat, now: int, n: nat)
    requires !Protocol.InFlight(s, r)
    ensures Steps(c, s, r, now, n) == s
  {
    if n > 0 {
      Rest(c, s, r, now, n - 1);
    }
  }

  /** From phase `p` one step takes the request to phase `q`, and the rest from `s` to `t`. */
  lemma Advance(c: Protocol.Config, s: Protocol.State, t: Protocol.State, r: nat, now: int, n: nat,
                p: Protocol.Phase, q: Protocol.Phase)
    requires r < |s.requests| && s.requests[r].alive && !Protocol.Ended(p) && n > 0
    requires t.requests == s.requests
    requires Protocol.StepRequest(c, Protocol.MoveTo(s, r, p), r, now)
             == Protocol.MoveTo(t.(requests := Protocol.MoveTo(s, r, p).requests), r, q)
    ensures Steps(c, Protocol.MoveTo(s, r, p), r, now, n) == Steps(c, Protocol.MoveTo(t, r, q), r, now, n - 1)
  {
    MovedTwice(s, r, p, q);
    assert Protocol.MoveTo(t.(requests := Protocol.MoveTo(s, r, p).requests), r, q) == Protocol.MoveTo(t, r, q);
  }

  predicate Passes(c: Protocol.Config, s: Protocol.State, user: int, now: int) {
    user !in s.issued && user !in s.queue && !(c.endTime.Some? && now > c.endTime.value)
  }

  lemma ChecksFail(c: Protocol.Config, s: Protocol.State, r: nat, now: int, n: nat)
    requires r < |s.requests| && s.requests[r].alive && n >= 3
    requires !Passes(c, s, s.requests[r].user, now)
    ensures Steps(c, Protocol.MoveTo(s, r, Protocol.Checking), r, now, n) == Protocol.MoveTo(s, r, Protocol.Rejected)
  {
    var user := s.requests[r].user;
    var rejected := Protocol.MoveTo(s, r, Protocol.Rejected);
    if user in s.issued {
      Advance(c, s, s, r, now, n, Protocol.Checking, Protocol.Rejected);
      Rest(c, rejected, r, now, n - 1);
    } else if user in s.queue {
      Advance(c, s, s, r, now, n, Protocol.Checking, Protocol.NotIssued);
      Advance(c, s, s, r, now, n - 1, Protocol.NotIssued, Protocol.Rejected);
      Rest(c, rejected, r, now, n - 2);
    } else {
      Advance(c, s, s, r, now, n, Protocol.Checking, Protocol.NotIssued);
      Advance(c, s, s, r, now, n - 1, Protocol.NotIssued, Protocol.NotQueued);
      Advance(c, s, s, r, now, n - 2, Protocol.NotQueued, Protocol.Rejected);
      Rest(c, rejected, r, now, n - 3);
    }
  }

  /** The state when a request that passed has decremented. */
  function Decremented(s: Protocol.State, r: nat): Protocol.State
    requires r < |s.requests|
  {
    s.(queue := s.queue + {s.requests[r].user}, stock := s.stock - 1, decrs := s.decrs + [r])
  }

  lemma ToDecrement(c: Protocol.Config, s: Protocol.State, r: nat, now: int, n: nat)
    requires r < |s.requests| && s.requests[r].alive && n >= 6
    requires Passes(c, s, s.requests[r].user, now)
    ensures var d := Decremented(s, r);
            Steps(c, Protocol.MoveTo(s, r, Protocol.Checking), r, now, n)
            == Steps(c, Protocol.MoveTo(d, r, if d.stock < 0 then Protocol.Lost else Protocol.Won), r, now, n - 6)
  {
    Advance(c, s, s, r, now, n, Protocol.Checking, Protocol.NotIssued);
    Advance(c, s, s, r, now, n - 1, Protocol.NotIssued, Protocol.NotQueued);
    Advance(c, s, s, r, now, n - 2, Protocol.NotQueued, Protocol.Admitted);
    var q := s.(queue := s.queue + {s.requests[r].user});
    Advance(c, s, q, r, now, n - 3, Protocol.Admitted, Protocol.Queued);
    Advance(c, q, q, r, now, n - 4, Protocol.Queued, Protocol.Ranked);
    var d := Decremented(s, r);
    Advance(c, q, d, r, now, n - 5, Protocol.Ranked, if d.stock < 0 then Protocol.Lost else Protocol.Won);
  }

  /** The end of a request that decremented below 0. */
  function AfterRollback(d: Protocol.State, r: nat): Protocol.State
    requires r < |d.requests|
  {
    Protocol.MoveTo(d.(queue := d.queue - {d.requests[r].user}, stock := d.stock + 1, rolledBack := d.rolledBack + {r}),
                    r, Protocol.SoldOut)
  }

  /** The end of a request that won its unit. */
  function AfterSave(c: Protocol.Config, d: Protocol.State, r: nat): Protocol.State
    requires r < |d.requests|
  {
    var u := d.requests[r].user;
    if c.knownType then
      Protocol.MoveTo(d.(coupons := d.coupons + [r], issued := d.issued + {u}, ranked := d.ranked + {u},
                         queue := d.queue - {u}), r, Protocol.Granted)
    else Protocol.MoveTo(d, r, Protocol.Refused)
  }

  lemma FromLost(c: Protocol.Config, d: Protocol.State, r: nat, now: int, n: nat)
    requires r < |d.requests| && d.requests[r].alive && n >= 2
    ensures Steps(c, Protocol.MoveTo(d, r, Protocol.Lost), r, now, n)
            == AfterRollback(d, r)
  {
    var q := d.(queue := d.queue - {d.requests[r].user});
    Advance(c, d, q, r, now, n, Protocol.Lost, Protocol.Dequeued);
    var t := q.(stock := q.stock + 1, rolledBack := q.rolledBack + {r});
    Advance(c, q, t, r, now, n - 1, Protocol.Dequeued, Protocol.SoldOut);
    Rest(c, Protocol.MoveTo(t, r, Protocol.SoldOut), r, now, n - 2);
  }

  lemma FromWon(c: Protocol.Config, d: Protocol.State, r: nat, now: int, n: nat)
    requires r < |d.requests| && d.requests[r].alive && n >= 4
    ensures Steps(c, Protocol.MoveTo(d, r, Protocol.Won), r, now, n) == AfterSave(c, d, r)
  {
    var u := d.requests[r].user;
    if c.knownType {
      var d1 := d.(coupons := d.coupons + [r]);
      Advance(c, d, d1, r, now, n, Protocol.Won, Protocol.Saved);
      var d2 := d1.(issued := d1.issued + {u});
      Advance(c, d1, d2, r, now, n - 1, Protocol.Saved, Protocol.InIssued);
      var d3 := d2.(ranked := d2.ranked + {u});
      Advance(c, d2, d3, r, now, n - 2, Protocol.InIssued, Protocol.RankWritten);
      var d4 := d3.(queue := d3.queue - {u});
      Advance(c, d3, d4, r, now, n - 3, Protocol.RankWritten, Protocol.Granted);
      Rest(c, Protocol.MoveTo(d4, r, Protocol.Granted), r, now, n - 4);
    } else {
      Advance(c, d, d, r, now, n, Protocol.Won, Protocol.Refused);
      Rest(c, Protocol.MoveTo(d, r, Protocol.Refused), r, now, n - 1);
    }
  }

  /** The configuration of the protocol says the same about the type as the stored state. */
  ghost predicate SameType(c: Protocol.Config, v: Issuance, known: bool, clk: Clock) {
    && c.knownType == known
    && (Late(v.end, clk.check) <==> c.endTime.Some? && clk.check > c.endTime.value)
  }

  lemma ArrivalMirrors(c: Protocol.Config, s: Protocol.State, v: Issuance, user: int)
    requires Mirrors(s, v)
    ensures Mirrors(Protocol.Apply(c, s, Protocol.Arrive(user)), v)
  {
    var s' := Protocol.Apply(c, s, Protocol.Arrive(user));
    assert UsersOf(s') == UsersOf(s);
  }

  lemma MoveMirrors(s: Protocol.State, v: Issuance, r: nat, p: Protocol.Phase)
    requires Mirrors(s, v) && r < |s.requests|
    ensures Mirrors(Protocol.MoveTo(s, r, p), v)
  {
    assert UsersOf(Protocol.MoveTo(s, r, p)) == UsersOf(s);
  }

  lemma DecrementMirrors(s: Protocol.State, v: Issuance, r: nat, clk: Clock)
    requires Mirrors(s, v) && r < |s.requests| && Running(clk)
    ensures Mirrors(Decremented(s, r), v.(queue := Put(v.queue, s.requests[r].user, clk.queued), stock := v.stock - 1))
  {
    PutMember(v.queue, s.queue, s.requests[r].user, clk.queued);
    assert UsersOf(Decremented(s, r)) == UsersOf(s);
  }

  lemma GrantMirrors(d: Protocol.State, v: Issuance, r: nat, clk: Clock, rank: nat)
    requires Mirrors(d, v) && r < |d.requests| && Running(clk)
    ensures var u := d.requests[r].user;
            Mirrors(d.(coupons := d.coupons + [r], issued := d.issued + {u}, ranked := d.ranked + {u},
                       queue := d.queue - {u}),
                    v.(queue := Delete(v.queue, u), holders := v.holders + [u],
                       issued := Put(v.issued, u, clk.issued), ranks := Put(v.ranks, u, rank)))
  {
    var u := d.requests[r].user;
    PutMember(v.issued, d.issued, u, clk.issued);
    DeleteMember(v.queue, d.queue, u);
    PutMeaning(v.ranks, u, rank);
    var t := d.(coupons := d.coupons + [r]);
    assert UsersOf(t) == UsersOf(d) + [u];
    assert UsersOf(t.(issued := d.issued + {u}, ranked := d.ranked + {u}, queue := d.queue - {u})) == UsersOf(t);
  }

  lemma RollbackMirrors(d: Protocol.State, v: Issuance, r: nat)
    requires Mirrors(d, v) && r < |d.requests|
    ensures var u := d.requests[r].user;
            Mirrors(d.(queue := d.queue - {u}, stock := d.stock + 1, rolledBack := d.rolledBack + {r}),
                    v.(queue := Delete(v.queue, u), stock := v.stock + 1))
  {
    var u := d.requests[r].user;
    DeleteMember(v.queue, d.queue, u);
    assert UsersOf(d.(queue := d.queue - {u}, stock := d.stock + 1, rolledBack := d.rolledBack + {r})) == UsersOf(d);
  }

  /** A request that fails a check. */
  lemma RejectedIsIssue(c: Protocol.Config, b: Protocol.State, v: Issuance, known: bool, r: nat, clk: Clock, n: nat)
    requires Mirrors(b, v) && SameType(c, v, known, clk)
    requires r < |b.requests| && b.requests[r].alive && n >= LONGEST && !Passes(c, b, b.requests[r].user, clk.check)
    ensures Steps(c, Protocol.MoveTo(b, r, Protocol.Checking), r, clk.check, n)
            == Protocol.MoveTo(b, r, Protocol.Rejected)
    ensures Issue(v, known, b.requests[r].user, clk) == (v, NotAvailable)
    ensures Mirrors(Protocol.MoveTo(b, r, Protocol.Rejected), v)
  {
    Seen(v.issued, b.issued, b.requests[r].user);
    Seen(v.queue, b.queue, b.requests[r].user);
    ChecksFail(c, b, r, clk.check, n);
    MoveMirrors(b, v, r, Protocol.Rejected);
  }

  /** A request that passed its checks and found no stock. */
  lemma LosingIsIssue(c: Protocol.Config, b: Protocol.State, v: Issuance, known: bool, r: nat, clk: Clock, n: nat)
    requires Mirrors(b, v) && SameType(c, v, known, clk) && Running(clk)
    requires r < |b.requests| && b.requests[r].alive && n >= LONGEST && Passes(c, b, b.requests[r].user, clk.check)
    requires b.stock - 1 < 0
    ensures Steps(c, Protocol.MoveTo(b, r, Protocol.Checking), r, clk.check, n) == AfterRollback(Decremented(b, r), r)
    ensures Issue(v, known, b.requests[r].user, clk)
            == (v.(queue := Delete(Put(v.queue, b.requests[r].user, clk.queued), b.requests[r].user)), Exhausted)
    ensures Mirrors(AfterRollback(Decremented(b, r), r), Issue(v, known, b.requests[r].user, clk).0)
  {
    var user := b.requests[r].user;
    var d, vd := Decremented(b, r), v.(queue := Put(v.queue, user, clk.queued), stock := v.stock - 1);
    Seen(v.issued, b.issued, user);
    Seen(v.queue, b.queue, user);
    ToDecrement(c, b, r, clk.check, n);
    FromLost(c, d, r, clk.check, n - 6);
    DecrementMirrors(b, v, r, clk);
    LostMirrors(d, vd, r);
  }

  /** A request that passed its checks and found stock. */
  lemma WinningIsIssue(c: Protocol.Config, b: Protocol.State, v: Issuance, known: bool, r: nat, clk: Clock, n: nat)
    requires Mirrors(b, v) && SameType(c, v, known, clk) && Running(clk)
    requires r < |b.requests| && b.requests[r].alive && n >= LONGEST && Passes(c, b, b.requests[r].user, clk.check)
    requires b.stock - 1 >= 0
    ensures Steps(c, Protocol.MoveTo(b, r, Protocol.Checking), r, clk.check, n) == AfterSave(c, Decremented(b, r), r)
    ensures Mirrors(AfterSave(c, Decremented(b, r), r), Issue(v, known, b.requests[r].user, clk).0)
    ensures Issue(v, known, b.requests[r].user, clk).1
            == (var user := b.requests[r].user;
                if known then Outcome.Issued(QueueRank(Put(v.queue, user, clk.queued), user)) else UnknownType)
  {
    var user := b.requests[r].user;
    var queue := Put(v.queue, user, clk.queued);
    var d, vd := Decremented(b, r), v.(queue := queue, stock := v.stock - 1);
    Seen(v.issued, b.issued, user);
    Seen(v.queue, b.queue, user);
    ToDecrement(c, b, r, clk.check, n);
    FromWon(c, d, r, clk.check, n - 6);
    DecrementMirrors(b, v, r, clk);
    WonMirrors(c, d, vd, r, clk, QueueRank(queue, user));
  }

  lemma LostMirrors(d: Protocol.State, v: Issuance, r: nat)
    requires Mirrors(d, v) && r < |d.requests|
    ensures var u := d.requests[r].user;
            Mirrors(AfterRollback(d, r), v.(queue := Delete(v.queue, u), stock := v.stock + 1))
  {
    RollbackMirrors(d, v, r);
    var u := d.requests[r].user;
    MoveMirrors(d.(queue := d.queue - {u}, stock := d.stock + 1, rolledBack := d.rolledBack + {r}),
                v.(queue := Delete(v.queue, u), stock := v.stock + 1), r, Protocol.SoldOut);
  }

  lemma WonMirrors(c: Protocol.Config, d: Protocol.State, v: Issuance, r: nat, clk: Clock, rank: nat)
    requires Mirrors(d, v) && r < |d.requests| && Running(clk)
    ensures var u := d.requests[r].user;
            Mirrors(AfterSave(c, d, r),
                    if c.knownType then
                      v.(queue := Delete(v.queue, u), holders := v.holders + [u],
                         issued := Put(v.issued, u, clk.issued), ranks := Put(v.ranks, u, rank))
                    else v)
  {
    var u := d.requests[r].user;
    if c.knownType {
      GrantMirrors(d, v, r, clk, rank);
      MoveMirrors(d.(coupons := d.coupons + [r], issued := d.issued + {u}, ranked := d.ranked + {u},
                     queue := d.queue - {u}),
                  v.(queue := Delete(v.queue, u), holders := v.holders + [u],
                     issued := Put(v.issued, u, clk.issued), ranks := Put(v.ranks, u, rank)), r, Protocol.Granted);
    } else {
      MoveMirrors(d, v, r, Protocol.Refused);
    }
  }

  /** Both descriptions of a request's end agree. */
  ghost predicate EndsAs(t: Protocol.State, r: nat, v: Issuance, o: Outcome) {
    Mirrors(t, v) && r < |t.requests| && t.requests[r].phase == PhaseFor(o)
  }

  lemma FinishIsIssue(c: Protocol.Config, b: Protocol.State, v: Issuance, known: bool, r: nat, clk: Clock, n: nat)
    requires Mirrors(b, v) && SameType(c, v, known, clk) && Running(clk)
    requires r < |b.requests| && b.requests[r].alive && n >= LONGEST
    ensures var issued := Issue(v, known, b.requests[r].user, clk);
            EndsAs(Steps(c, Protocol.MoveTo(b, r, Protocol.Checking), r, clk.check, n), r, issued.0, issued.1)
  {
    if !Passes(c, b, b.requests[r].user, clk.check) {
      RejectedIsIssue(c, b, v, known, r, clk, n);
    } else if b.stock - 1 < 0 {
      LosingIsIssue(c, b, v, known, r, clk, n);
    } else {
      WinningIsIssue(c, b, v, known, r, clk, n);
    }
  }

  /**
   From any state that both describe, a request that runs alone and `Issue` end in states that
   both describe, and tell the caller the same.
   */
  lemma AloneIsIssue(c: Protocol.Config, s: Protocol.State, v: Issuance, known: bool, user: int,
                    clk: Clock, n: nat)
    requires Mirrors(s, v) && SameType(c, v, known, clk) && Running(clk) && n >= LONGEST
    ensures var (v', o) := Issue(v, known, user, clk);
            EndsAs(RunAlone(c, s, user, clk.check, n), |s.requests|, v', o)
  {
    var r := |s.requests|;
    var b := Protocol.Apply(c, s, Protocol.Arrive(user));
    assert b == Protocol.MoveTo(b, r, Protocol.Checking);
    ArrivalMirrors(c, s, v, user);
    FinishIsIssue(c, b, v, known, r, clk, n);
  }

  // ----- whole serial runs

  function Turns(r: nat, now: int, n: nat): seq<Protocol.Event> {
    if n == 0 then [] else Turns(r, now, n - 1) + [Protocol.Step(r, now)]
  }

  /** Back-to-back requests: each arrives and gets `n` turns before the next arrives. */
  function Serial(ms: seq<Message>, n: nat): seq<Protocol.Event> {
    if ms == [] then []
    else
      var m := ms[|ms| - 1];
      Serial(ms[..|ms| - 1], n) + [Protocol.Arrive(m.userId)] + Turns(|ms| - 1, m.clk.check, n)
  }

  lemma {:induction false} StepsFromTheEnd(c: Protocol.Config, s: Protocol.State, r: nat, now: int, n: nat)
    ensures Steps(c, s, r, now, n + 1) == Protocol.Apply(c, Steps(c, s, r, now, n), Protocol.Step(r, now))
    decreases n
  {
    if n > 0 {
      StepsFromTheEnd(c, Protocol.Apply(c, s, Protocol.Step(r, now)), r, now, n - 1);
    }
  }

  lemma {:induction false} AfterTurns(c: Protocol.Config, es: seq<Protocol.Event>, r: nat, now: int, n: nat)
    ensures Protocol.After(c, es + Turns(r, now, n)) == Steps(c, Protocol.After(c, es), r, now, n)
  {
    if n == 0 {
      assert es + [] == es;
    } else {
      AfterTurns(c, es, r, now, n - 1);
      StepsFromTheEnd(c, Protocol.After(c, es), r, now, n - 1);
      assert es + Turns(r, now, n) == es + Turns(r, now, n - 1) + [Protocol.Step(r, now)];
      Protocol.AfterAppend(c, es + Turns(r, now, n - 1), Protocol.Step(r, now));
    }
  }

  lemma {:induction false} StepsKeepCount(c: Protocol.Config, s: Protocol.State, r: nat, now: int, n: nat)
    ensures |Steps(c, s, r, now, n).requests| == |s.requests|
    decreases n
  {
    if n > 0 {
      StepsKeepCount(c, Protocol.Apply(c, s, Protocol.Step(r, now)), r, now, n - 1);
    }
  }

  /** At every message's check the configuration and the stored end time agree on whether it is late. */
  ghost predicate SameRun(c: Protocol.Config, v: Issuance, known: bool, ms: seq<Message>) {
    forall k :: 0 <= k < |ms| ==> Running(ms[k].clk) && SameType(c, v, known, ms[k].clk)
  }

  lemma {:induction false} IssueAllKeepsEnd(v: Issuance, known: bool, ms: seq<Message>)
    ensures IssueAll(v, known, ms).end == v.end
  {
    if ms != [] {
      IssueAllKeepsEnd(v, known, ms[..|ms| - 1]);
    }
  }

  /** One more request after a serial run. */
  lemma SerialOneMore(c: Protocol.Config, es: seq<Protocol.Event>, v: Issuance, known: bool, m: Message, n: nat)
    requires Mirrors(Protocol.After(c, es), v) && SameType(c, v, known, m.clk) && Running(m.clk) && n >= LONGEST
    ensures var s := Protocol.After(c, es);
            var more := es + [Protocol.Arrive(m.userId)] + Turns(|s.requests|, m.clk.check, n);
            && Mirrors(Protocol.After(c, more), Issue(v, known, m.userId, m.clk).0)
            && |Protocol.After(c, more).requests| == |s.requests| + 1
  {
    var s := Protocol.After(c, es);
    var arrived := es + [Protocol.Arrive(m.userId)];
    Protocol.AfterAppend(c, es, Protocol.Arrive(m.userId));
    AfterTurns(c, arrived, |s.requests|, m.clk.check, n);
    AloneIsIssue(c, s, v, known, m.userId, m.clk, n);
    StepsKeepCount(c, Protocol.After(c, arrived), |s.requests|, m.clk.check, n);
  }

  /** A serial run of the protocol and the replay of its messages end in the same world. */
  lemma {:induction false} SerialIsIssueAll(c: Protocol.Config, v0: Issuance, known: bool, ms: seq<Message>, n: nat)
    requires Fresh(v0) && v0.stock == c.initialStock && SameRun(c, v0, known, ms) && n >= LONGEST
    ensures Mirrors(Protocol.After(c, Serial(ms, n)), IssueAll(v0, known, ms))
    ensures |Protocol.After(c, Serial(ms, n)).requests| == |ms|
  {
    if ms == [] {
      assert forall u :: !Has([], u);
      assert UsersOf(Protocol.Start(c)) == [];
    } else {
      var before, m := ms[..|ms| - 1], ms[|ms| - 1];
      SerialIsIssueAll(c, v0, known, before, n);
      IssueAllKeepsEnd(v0, known, before);
      SerialOneMore(c, Serial(before, n), IssueAll(v0, known, before), known, m, n);
    }
  }

  /** So the machine, run back to back, serves exactly the first N distinct on-time users, in order. */
  lemma SerialProtocolFirstCome(c: Protocol.Config, v0: Issuance, ms: seq<Message>, n: nat)
    requires Fresh(v0) && v0.stock == c.initialStock && SameRun(c, v0, true, ms) && n >= LONGEST
    ensures var s := Protocol.After(c, Serial(ms, n));
            && (forall k :: 0 <= k < |s.coupons| ==> s.coupons[k] < |s.requests|)
            && UsersOf(s) == Take(FirstDistinct(OnTime(v0.end, ms)), c.initialStock)
            && s.queue == {}
            && s.stock == c.initialStock - |s.coupons|
  {
    SerialIsIssueAll(c, v0, true, ms, n);
    SerialRun(v0, ms);
    var v, s := IssueAll(v0, true, ms), Protocol.After(c, Serial(ms, n));
    assert |UsersOf(s)| == |s.coupons|;
    forall u
      ensures u !in s.queue
    {
      assert u in s.queue <==> Has(v.queue, u);
    }
  }
}
