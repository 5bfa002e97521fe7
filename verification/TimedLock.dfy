/**
 The Redis lock under time. Keys expire, holders release by deleting the key, processes may
 stop while holding. Who wrote a key is history: the source stores the same word for everyone.
 */
module TimedLock {
  import opened Common

  datatype Config = Config(ttl: int, retryCount: nat)

  datatype Lease = Lease(owner: nat, expiresAt: int)

  datatype Phase = Trying(attempt: nat) | Holding(since: int) | Released | GaveUp | Crashed

  datatype Request = Request(key: string, phase: Phase)

  datatype State = State(now: int, leases: map<string, Lease>, requests: seq<Request>)

  datatype Event =
    | Tick(delta: nat)
    | Arrive(key: string)
    | Attempt(request: nat)
    | Expire(key: string)
    | Release(request: nat)
    | Crash(request: nat)

  function Start(): State {
    State(0, map[], [])
  }

  predicate Tries(s: State, r: nat) {
    r < |s.requests| && s.requests[r].phase.Trying?
  }

  predicate Holds(s: State, r: nat) {
    r < |s.requests| && s.requests[r].phase.Holding?
  }

  function MoveTo(s: State, r: nat, p: Phase): State
    requires r < |s.requests|
  {
    s.(requests := s.requests[r := s.requests[r].(phase := p)])
  }

  /** An event that is not possible leaves the state alone; a key may outlive its expiry. */
  function Apply(c: Config, s: State, e: Event): State {
    match e
    case Tick(d) => s.(now := s.now + d)
    case Arrive(k) => s.(requests := s.requests + [Request(k, Trying(0))])
    case Attempt(r) =>
      if !Tries(s, r) then s
      else
        var k, a := s.requests[r].key, s.requests[r].phase.attempt;
        if a < c.retryCount && k !in s.leases then
          MoveTo(s.(leases := s.leases[k := Lease(r, s.now + c.ttl)]), r, Holding(s.now))
        else
          MoveTo(s, r, if a + 1 < c.retryCount then Trying(a + 1) else GaveUp)
    case Expire(k) =>
      if k in s.leases && s.now > s.leases[k].expiresAt then s.(leases := s.leases - {k}) else s
    case Release(r) =>
      if Holds(s, r) then MoveTo(s.(leases := s.leases - {s.requests[r].key}), r, Released) else s
    case Crash(r) =>
      if Tries(s, r) || Holds(s, r) then MoveTo(s, r, Crashed) else s
  }

  function After(c: Config, es: seq<Event>): State {
    if es == [] then Start() else Apply(c, After(c, es[..|es| - 1]), es[|es| - 1])
  }

  /** No holder stays in its section longer than `bound`: handler attempts and delays included. */
  ghost predicate Prompt(s: State, bound: int) {
    forall r: nat :: Holds(s, r) ==> s.now - s.requests[r].phase.since <= bound
  }

  ghost predicate PromptRun(c: Config, es: seq<Event>, bound: int) {
    forall k :: 0 <= k <= |es| ==> Prompt(After(c, es[..k]), bound)
  }

  /** At most one request per key is in its section. */
  ghost predicate Mutex(s: State) {
    forall q: nat, r: nat :: Holds(s, q) && Holds(s, r) && q != r ==> s.requests[q].key != s.requests[r].key
  }

  /** The key in Redis is the holder's own, so its release deletes nobody else's. */
  ghost predicate OwnKeys(c: Config, s: State) {
    forall r: nat :: Holds(s, r) ==>
      s.requests[r].key in s.leases && s.leases[s.requests[r].key] == Lease(r, s.requests[r].phase.since + c.ttl)
  }

  lemma OwnKeysStep(c: Config, s: State, e: Event, bound: int)
    requires OwnKeys(c, s) && Prompt(s, bound) && bound <= c.ttl
    ensures OwnKeys(c, Apply(c, s, e))
  {
    var s' := Apply(c, s, e);
    forall r: nat | Holds(s', r)
      ensures s'.requests[r].key in s'.leases
      ensures s'.leases[s'.requests[r].key] == Lease(r, s'.requests[r].phase.since + c.ttl)
    {
      if Holds(s, r) {
        assert s'.requests[r] == s.requests[r];
      }
    }
  }

  lemma PrefixPrompt(c: Config, es: seq<Event>, bound: int)
    requires PromptRun(c, es, bound) && es != []
    ensures PromptRun(c, es[..|es| - 1], bound)
    ensures Prompt(After(c, es[..|es| - 1]), bound)
  {
    var before := es[..|es| - 1];
    forall k | 0 <= k <= |before|
      ensures Prompt(After(c, before[..k]), bound)
    {
      assert before[..k] == es[..k];
    }
    assert before[..|before|] == before;
  }

  /** While holders are prompt, every holder's key is its own and sections exclude each other. */
  lemma {:induction false} PromptHoldersOwnTheirKeys(c: Config, es: seq<Event>, bound: int)
    requires PromptRun(c, es, bound) && bound <= c.ttl
    ensures OwnKeys(c, After(c, es))
    ensures Mutex(After(c, es))
  {
    if es != [] {
      PrefixPrompt(c, es, bound);
      PromptHoldersOwnTheirKeys(c, es[..|es| - 1], bound);
      OwnKeysStep(c, After(c, es[..|es| - 1]), es[|es| - 1], bound);
    }
    var s := After(c, es);
    assert forall q: nat, r: nat :: Holds(s, q) && Holds(s, r) && s.requests[q].key == s.requests[r].key ==>
        s.leases[s.requests[q].key].owner == q && s.leases[s.requests[r].key].owner == r;
  }

  /** A late holder: its key expires under it and the next request walks in. */
  function Overrun(c: Config): seq<Event> {
    [Arrive("k"), Arrive("k"), Attempt(0), Tick(Max(c.ttl + 1, 0)), Expire("k"), Attempt(1)]
  }

  lemma AfterAppend(c: Config, es: seq<Event>, e: Event)
    ensures After(c, es + [e]) == Apply(c, After(c, es), e)
  {
    assert (es + [e])[..|es|] == es;
  }

  function Two(c: Config, now: int, leases: map<string, Lease>, p: Phase, q: Phase): State {
    State(now, leases, [Request("k", p), Request("k", q)])
  }

  /** The states on the way. */
  function Stage(c: Config, k: nat): State {
    if k == 0 then Start()
    else if k == 1 then State(0, map[], [Request("k", Trying(0))])
    else if k == 2 then Two(c, 0, map[], Trying(0), Trying(0))
    else if k == 3 then Two(c, 0, map["k" := Lease(0, c.ttl)], Holding(0), Trying(0))
    else if k == 4 then Two(c, c.ttl + 1, map["k" := Lease(0, c.ttl)], Holding(0), Trying(0))
    else if k == 5 then Two(c, c.ttl + 1, map[], Holding(0), Trying(0))
    else Two(c, c.ttl + 1, map["k" := Lease(1, c.ttl + 1 + c.ttl)], Holding(0), Holding(c.ttl + 1))
  }

  lemma StageStep(c: Config, k: nat)
    requires c.ttl >= 0 && c.retryCount > 0 && k < 6
    ensures Apply(c, Stage(c, k), Overrun(c)[k]) == Stage(c, k + 1)
  {
    if k == 2 {
      assert map[]["k" := Lease(0, 0 + c.ttl)] == map["k" := Lease(0, c.ttl)];
    } else if k == 4 {
      assert map["k" := Lease(0, c.ttl)] - {"k"} == map[];
    } else if k == 5 {
      assert map[]["k" := Lease(1, c.ttl + 1 + c.ttl)] == map["k" := Lease(1, c.ttl + 1 + c.ttl)];
    }
  }

  lemma {:induction false} OverrunStates(c: Config, k: nat)
    requires c.ttl >= 0 && c.retryCount > 0 && k <= 6
    ensures After(c, Overrun(c)[..k]) == Stage(c, k)
  {
    if k > 0 {
      var es := Overrun(c);
      OverrunStates(c, k - 1);
      AfterAppend(c, es[..k - 1], es[k - 1]);
      assert es[..k] == es[..k - 1] + [es[k - 1]];
      StageStep(c, k - 1);
    }
  }

  /** Every run whose holders finish within the bound keeps their sections apart. */
  ghost predicate AlwaysExclusive(c: Config, bound: int) {
    forall es :: PromptRun(c, es, bound) ==> Mutex(After(c, es))
  }

  /** In every such run each holder's key is its own. */
  ghost predicate AlwaysOwnKeys(c: Config, bound: int) {
    forall es :: PromptRun(c, es, bound) ==> OwnKeys(c, After(c, es))
  }

  /** Exactly: sections are exclusive in all runs when holders finish within the time to live. */
  lemma MutexExactly(c: Config, bound: int)
    requires c.ttl >= 0
    ensures AlwaysExclusive(c, bound) <==> bound <= c.ttl || c.retryCount == 0
  {
    if bound <= c.ttl {
      forall es | PromptRun(c, es, bound)
        ensures Mutex(After(c, es))
      {
        PromptHoldersOwnTheirKeys(c, es, bound);
      }
    } else if c.retryCount == 0 {
      forall es
        ensures Mutex(After(c, es))
      {
        NoAttemptsNoHolder(c, es);
        assert forall q: nat :: !Holds(After(c, es), q);
      }
    } else {
      LateRunIsPrompt(c, bound);
      var s := After(c, Overrun(c));
      assert Holds(s, 0) && Holds(s, 1) && s.requests[0].key == s.requests[1].key;
    }
  }

  /** Exactly: every release deletes the releaser's own key when holders finish within the time to live. */
  lemma OwnKeysExactly(c: Config, bound: int)
    requires c.ttl >= 0
    ensures AlwaysOwnKeys(c, bound) <==> bound <= c.ttl || c.retryCount == 0
  {
    if bound <= c.ttl {
      forall es | PromptRun(c, es, bound)
        ensures OwnKeys(c, After(c, es))
      {
        PromptHoldersOwnTheirKeys(c, es, bound);
      }
    } else if c.retryCount == 0 {
      forall es
        ensures OwnKeys(c, After(c, es))
      {
        NoAttemptsNoHolder(c, es);
      }
    } else {
      LateRunIsPrompt(c, bound);
      var s := After(c, Overrun(c));
      assert Holds(s, 0) && s.leases["k"].owner == 1;
      assert !OwnKeys(c, s);
    }
  }

  /** In the late run the first holder's release deletes the second one's key. */
  lemma LateReleaseDeletesOthersKey(c: Config)
    requires c.ttl >= 0 && c.retryCount > 0
    ensures var s := After(c, Overrun(c));
            var s' := After(c, Overrun(c) + [Release(0)]);
            && Holds(s, 1) && "k" in s.leases && s.leases["k"].owner == 1
            && Holds(s', 1) && "k" !in s'.leases
  {
    OverrunStates(c, 6);
    var es := Overrun(c);
    assert es[..6] == es;
    AfterAppend(c, es, Release(0));
  }

  /** The late run stays within any bound above the time to live. */
  lemma LateRunIsPrompt(c: Config, bound: int)
    requires c.ttl >= 0 && c.retryCount > 0 && bound > c.ttl
    ensures PromptRun(c, Overrun(c), bound)
    ensures After(c, Overrun(c)) == Stage(c, 6)
  {
    var es := Overrun(c);
    forall k | 0 <= k <= |es|
      ensures Prompt(After(c, es[..k]), bound)
    {
      OverrunStates(c, k);
    }
    OverrunStates(c, 6);
    assert es[..6] == es;
  }

  lemma {:induction false} NoAttemptsNoHolder(c: Config, es: seq<Event>)
    requires c.retryCount == 0
    ensures forall r: nat :: !Holds(After(c, es), r)
  {
    if es != [] {
      NoAttemptsNoHolder(c, es[..|es| - 1]);
      var s, s' := After(c, es[..|es| - 1]), After(c, es);
      forall r: nat
        ensures !Holds(s', r)
      {
        assert !Holds(s, r);
      }
    }
  }

  // ----- one request on its own

  /** `n` attempts in a row. */
  function Attempted(c: Config, s: State, r: nat, n: nat): State {
    if n == 0 then s else Apply(c, Attempted(c, s, r, n - 1), Attempt(r))
  }

  /** A key that stays taken: given up after exactly `retryCount` attempts, with nothing changed. */
  lemma {:induction false} TakenKeyGivesUp(c: Config, s: State, r: nat, n: nat)
    requires Tries(s, r) && s.requests[r].phase.attempt == 0 && s.requests[r].key in s.leases
    requires 0 < n <= c.retryCount
    ensures var s' := Attempted(c, s, r, n);
            && |s'.requests| == |s.requests| && s'.requests[r].key == s.requests[r].key
            && s'.requests[r].phase == (if n < c.retryCount then Trying(n) else GaveUp)
            && s'.leases == s.leases
  {
    if n > 1 {
      TakenKeyGivesUp(c, s, r, n - 1);
    }
  }

  /** A free key: taken at once for the time to live, and free again after the release. */
  lemma FreeKeyIsTaken(c: Config, s: State, r: nat)
    requires Tries(s, r) && s.requests[r].phase.attempt < c.retryCount && s.requests[r].key !in s.leases
    ensures var key := s.requests[r].key;
            var held := Apply(c, s, Attempt(r));
            var out := Apply(c, held, Release(r));
            && Holds(held, r) && held.leases == s.leases[key := Lease(r, s.now + c.ttl)]
            && out.requests[r].phase.Released? && out.leases == s.leases
  {
    var key := s.requests[r].key;
    assert s.leases[key := Lease(r, s.now + c.ttl)] - {key} == s.leases;
  }
}
