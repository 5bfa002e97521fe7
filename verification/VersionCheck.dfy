/**
 The database version check: read the row's version, run the handler, bump the version only
 if it is still the one read, and try again on a conflict.
 */
module VersionCheck {
  import opened Common

  // ----- one interceptor call, against a row that others may bump

  /** A handler that throws may do so with the very message that marks a conflict. */
  datatype HandlerEnd = Returned(value: int) | Failed(likeConflict: bool)

  /** What one attempt meets: how the handler ends and how far others bump the version meanwhile. */
  datatype Attempt = Attempt(handler: HandlerEnd, bumps: nat)

  datatype Outcome = Committed(value: int) | RecordMissing | HandlerFailed | Exhausted

  /** What others added to the version during the first `n` attempts. */
  function Bumps(attempts: seq<Attempt>, n: nat): nat
    requires n <= |attempts|
  {
    if n == 0 then 0 else Bumps(attempts, n - 1) + attempts[n - 1].bumps
  }

  predicate Conflicts(a: Attempt) {
    match a.handler
    case Returned(_) => a.bumps > 0
    case Failed(likeConflict) => likeConflict
  }

  class VersionedRow {
    var present: bool
    var version: int

    constructor (present: bool, version: int)
      ensures this.present == present && this.version == version
    {
      this.present, this.version := present, version;
    }

    /**
     Commits in the first attempt nobody disturbs, when only conflicts precede it and the
     limit allows; the version then moves by one on top of what others added.
     */
    method ExecuteWithDbOptimisticLock(maxRetriesOption: Option<int>, attempts: seq<Attempt>)
      returns (r: Outcome, calls: nat)
      requires |attempts| >= OrDefault(maxRetriesOption, 3)
      modifies this`version
      ensures calls <= |attempts| && calls <= Max(OrDefault(maxRetriesOption, 3), 0)
      ensures !present && OrDefault(maxRetriesOption, 3) > 0 ==> r.RecordMissing? && calls == 0
      ensures r.RecordMissing? ==> !present
      ensures forall i :: 0 <= i < calls - 1 ==>
                (attempts[i].handler.Returned? && attempts[i].bumps > 0) || attempts[i].handler == Failed(true)
      ensures r.Committed? ==> calls > 0 && attempts[calls - 1] == Attempt(Returned(r.value), 0)
      ensures r.HandlerFailed? ==> calls > 0 && attempts[calls - 1].handler == Failed(false)
      ensures r.Exhausted? ==> calls == Max(OrDefault(maxRetriesOption, 3), 0)
                               && forall i :: 0 <= i < calls ==> Conflicts(attempts[i])
      ensures r.Committed? || r.HandlerFailed? ==> !Conflicts(attempts[calls - 1])
      ensures version == old(version) + Bumps(attempts, calls) + if r.Committed? then 1 else 0
    {
      var maxRetries := OrDefault(maxRetriesOption, 3);
      calls := 0;
      while calls < maxRetries
        invariant calls <= Max(maxRetries, 0)
        invariant present == old(present)
        invariant calls > 0 ==> present
        invariant forall i :: 0 <= i < calls ==> Conflicts(attempts[i])
        invariant version == old(version) + Bumps(attempts, calls)
      {
        if !present {
          return RecordMissing, calls;
        }
        var currentVersion := version;
        var a := attempts[calls];
        version := version + a.bumps;
        calls := calls + 1;
        if a.handler.Failed? {
          if !a.handler.likeConflict {
            return HandlerFailed, calls;
          }
        } else if version == currentVersion {
          version := version + 1;
          return Committed(a.handler.value), calls;
        }
      }
      return Exhausted, calls;
    }
  }

  // ----- any number of calls, interleaved on one row

  datatype Phase =
    | Waiting(attempt: nat)
    | HasRead(attempt: nat, version: int, at: nat)
    | Ran(attempt: nat, version: int, at: nat)
    | Finished
    | GivenUp

  /** What happened to the row, in order; `readAt` is the position of the attempt's own read. */
  datatype Entry =
    | Read(request: nat, version: int)
    | Bump(delta: nat)
    | Commit(request: nat, version: int, readAt: nat)

  datatype State = State(version: int, requests: map<nat, Phase>, log: seq<Entry>)

  datatype Event =
    | ReadVersion(request: nat)
    | RunHandler(request: nat, end: HandlerEnd)
    | TryUpdate(request: nat)
    | OtherWrite(delta: nat)

  function Start(version: int): State {
    State(version, map[], [])
  }

  function PhaseOf(s: State, r: nat): Phase {
    if r in s.requests then s.requests[r] else Waiting(0)
  }

  function Log(s: State, r: nat, p: Phase, e: Entry): State {
    s.(requests := s.requests[r := p], log := s.log + [e])
  }

  function Retry(maxRetries: nat, attempt: nat): Phase {
    if attempt + 1 < maxRetries then Waiting(attempt + 1) else GivenUp
  }

  /** The update and the commit are one step: the row stays locked between them. */
  function Apply(maxRetries: nat, s: State, e: Event): State {
    match e
    case ReadVersion(r) =>
      var p := PhaseOf(s, r);
      if p.Waiting? && p.attempt < maxRetries then
        Log(s, r, HasRead(p.attempt, s.version, |s.log|), Read(r, s.version))
      else s
    case RunHandler(r, end) =>
      var p := PhaseOf(s, r);
      if p.HasRead? then
        s.(requests := s.requests[r := match end
                                       case Returned(_) => Ran(p.attempt, p.version, p.at)
                                       case Failed(likeConflict) =>
                                         if likeConflict then Retry(maxRetries, p.attempt) else GivenUp])
      else s
    case TryUpdate(r) =>
      var p := PhaseOf(s, r);
      if p.Ran? then
        if s.version == p.version then
          Log(s, r, Finished, Commit(r, p.version, p.at)).(version := s.version + 1)
        else
          s.(requests := s.requests[r := Retry(maxRetries, p.attempt)])
      else s
    case OtherWrite(d) =>
      if d > 0 then s.(version := s.version + d, log := s.log + [Bump(d)]) else s
  }

  function After(maxRetries: nat, version: int, es: seq<Event>): State {
    if es == [] then Start(version)
    else Apply(maxRetries, After(maxRetries, version, es[..|es| - 1]), es[|es| - 1])
  }

  /** How far an entry moves the version. */
  function Move(e: Entry): nat {
    match e
    case Read(_, _) => 0
    case Bump(d) => d
    case Commit(_, _, _) => 1
  }

  function Moves(log: seq<Entry>): nat {
    if log == [] then 0 else Moves(log[..|log| - 1]) + Move(log[|log| - 1])
  }

  function Commits(log: seq<Entry>): nat {
    if log == [] then 0 else Commits(log[..|log| - 1]) + if log[|log| - 1].Commit? then 1 else 0
  }

  function Reads(log: seq<Entry>, r: nat): nat {
    if log == [] then 0
    else Reads(log[..|log| - 1], r) + if log[|log| - 1].Read? && log[|log| - 1].request == r then 1 else 0
  }

  /** The version right before entry i. */
  function VersionAt(start: int, log: seq<Entry>, i: nat): int
    requires i <= |log|
  {
    start + Moves(log[..i])
  }

  /** Attempts that are under way started with the read they remember. */
  ghost predicate Remembers(s: State, r: nat, start: int) {
    var p := PhaseOf(s, r);
    (p.HasRead? || p.Ran?) ==>
      && p.at < |s.log| && s.log[p.at] == Read(r, p.version)
      && p.version == VersionAt(start, s.log, p.at)
  }

  /** Nobody committed or wrote between an attempt's read and its commit. */
  ghost predicate Undisturbed(log: seq<Entry>, i: nat, start: int)
    requires i < |log|
  {
    log[i].Commit? ==>
      && log[i].readAt < i && log[log[i].readAt] == Read(log[i].request, log[i].version)
      && log[i].version == VersionAt(start, log, i)
      && forall x :: log[i].readAt < x < i ==> log[x].Read?
  }

  ghost predicate RowInvariant(s: State, start: int) {
    && s.version == start + Moves(s.log)
    && (forall i :: 0 <= i < |s.log| && s.log[i].Bump? ==> s.log[i].delta > 0)
    && (forall r: nat :: Remembers(s, r, start))
    && (forall i: nat :: i < |s.log| ==> Undisturbed(s.log, i, start))
  }

  lemma {:induction false} MovesGrow(log: seq<Entry>, i: nat, j: nat)
    requires i <= j <= |log|
    ensures Moves(log[..i]) <= Moves(log[..j])
    ensures forall x :: i <= x < j && !log[x].Read? && Move(log[x]) > 0 ==> Moves(log[..i]) < Moves(log[..j])
  {
    if i < j {
      MovesGrow(log, i, j - 1);
      assert log[..j][..j - 1] == log[..j - 1];
    }
  }

  lemma VersionAtPrefix(start: int, log: seq<Entry>, e: Entry, i: nat)
    requires i <= |log|
    ensures VersionAt(start, log + [e], i) == VersionAt(start, log, i)
  {
    assert (log + [e])[..i] == log[..i];
  }

  /** Appending an entry that is not a commit keeps everything said about the log before. */
  lemma UndisturbedKept(log: seq<Entry>, e: Entry, start: int, i: nat)
    requires i < |log| && Undisturbed(log, i, start)
    ensures Undisturbed(log + [e], i, start)
  {
    VersionAtPrefix(start, log, e, i);
  }

  lemma RemembersKept(s: State, s': State, r: nat, start: int, e: Entry)
    requires Remembers(s, r, start) && s'.log == s.log + [e] && PhaseOf(s', r) == PhaseOf(s, r)
    ensures Remembers(s', r, start)
  {
    var p := PhaseOf(s, r);
    if p.HasRead? || p.Ran? {
      VersionAtPrefix(start, s.log, e, p.at);
    }
  }

  /** An attempt finds its version unchanged exactly when nobody wrote since its read. */
  lemma UnchangedExactly(s: State, r: nat, start: int)
    requires RowInvariant(s, start) && PhaseOf(s, r).Ran?
    ensures s.version == PhaseOf(s, r).version <==> forall x :: PhaseOf(s, r).at < x < |s.log| ==> s.log[x].Read?
  {
    var p := PhaseOf(s, r);
    assert Remembers(s, r, start);
    MovesGrow(s.log, p.at, |s.log|);
    assert s.log[..|s.log|] == s.log;
    if forall x :: p.at < x < |s.log| ==> s.log[x].Read? {
      ReadsDoNotMove(s.log, p.at, |s.log|);
    } else {
      var x :| p.at < x < |s.log| && !s.log[x].Read?;
      assert Move(s.log[x]) > 0;
    }
  }

  lemma {:induction false} ReadsDoNotMove(log: seq<Entry>, i: nat, j: nat)
    requires i <= j <= |log| && forall x :: i <= x < j ==> log[x].Read?
    ensures Moves(log[..i]) == Moves(log[..j])
  {
    if i < j {
      ReadsDoNotMove(log, i, j - 1);
      assert log[..j][..j - 1] == log[..j - 1];
    }
  }

  lemma MovesAppend(log: seq<Entry>, e: Entry)
    ensures Moves(log + [e]) == Moves(log) + Move(e)
    ensures Commits(log + [e]) == Commits(log) + if e.Commit? then 1 else 0
    ensures Bumped(log + [e]) == Bumped(log) + if e.Bump? then e.delta else 0
    ensures forall r :: Reads(log + [e], r) == Reads(log, r) + if e.Read? && e.request == r then 1 else 0
  {
    assert (log + [e])[..|log|] == log;
  }

  function Bumped(log: seq<Entry>): nat {
    if log == [] then 0 else Bumped(log[..|log| - 1]) + if log[|log| - 1].Bump? then log[|log| - 1].delta else 0
  }

  /** A step that logs one entry: what is to check is the new entry and the request that moved. */
  lemma LoggingStep(s: State, s': State, start: int, r: nat, e: Entry)
    requires RowInvariant(s, start)
    requires s'.log == s.log + [e] && s'.version == s.version + Move(e)
    requires forall q: nat :: q != r ==> PhaseOf(s', q) == PhaseOf(s, q)
    requires Remembers(s', r, start)
    requires Undisturbed(s'.log, |s.log|, start)
    requires e.Bump? ==> e.delta > 0
    ensures RowInvariant(s', start)
  {
    MovesAppend(s.log, e);
    forall q: nat
      ensures Remembers(s', q, start)
    {
      if q != r {
        RemembersKept(s, s', q, start, e);
      }
    }
    forall i: nat | i < |s'.log|
      ensures Undisturbed(s'.log, i, start)
    {
      if i < |s.log| {
        UndisturbedKept(s.log, e, start, i);
      }
    }
  }

  lemma CommitIsUndisturbed(s: State, r: nat, start: int)
    requires RowInvariant(s, start) && PhaseOf(s, r).Ran? && s.version == PhaseOf(s, r).version
    ensures var p := PhaseOf(s, r);
            Undisturbed(s.log + [Commit(r, p.version, p.at)], |s.log|, start)
  {
    var p := PhaseOf(s, r);
    var e := Commit(r, p.version, p.at);
    assert Remembers(s, r, start);
    UnchangedExactly(s, r, start);
    VersionAtPrefix(start, s.log, e, |s.log|);
    assert s.log[..|s.log|] == s.log;
  }

  /** A step that logs nothing. */
  lemma SilentStep(s: State, s': State, start: int, r: nat)
    requires RowInvariant(s, start)
    requires s'.log == s.log && s'.version == s.version
    requires forall q: nat :: q != r ==> PhaseOf(s', q) == PhaseOf(s, q)
    requires Remembers(s', r, start)
    ensures RowInvariant(s', start)
  {
    forall q: nat
      ensures Remembers(s', q, start)
    {
      assert Remembers(s, q, start);
    }
  }

  lemma RowInvariantStep(maxRetries: nat, s: State, e: Event, start: int)
    requires RowInvariant(s, start)
    ensures RowInvariant(Apply(maxRetries, s, e), start)
  {
    var s' := Apply(maxRetries, s, e);
    match e
    case ReadVersion(r) =>
      if s' != s {
        VersionAtPrefix(start, s.log, s'.log[|s.log|], |s.log|);
        assert s.log[..|s.log|] == s.log;
        LoggingStep(s, s', start, r, s'.log[|s.log|]);
      }
    case RunHandler(r, _) =>
      assert Remembers(s, r, start);
      SilentStep(s, s', start, r);
    case TryUpdate(r) =>
      if s'.log != s.log {
        CommitIsUndisturbed(s, r, start);
        LoggingStep(s, s', start, r, s'.log[|s.log|]);
      } else {
        assert Remembers(s, r, start);
        SilentStep(s, s', start, r);
      }
    case OtherWrite(d) =>
      if d > 0 {
        RemembersKept(s, s', 0, start, Bump(d));
        LoggingStep(s, s', start, 0, Bump(d));
      }
  }

  lemma {:induction false} RowInvariantHolds(maxRetries: nat, start: int, es: seq<Event>)
    ensures RowInvariant(After(maxRetries, start, es), start)
  {
    if es != [] {
      RowInvariantHolds(maxRetries, start, es[..|es| - 1]);
      RowInvariantStep(maxRetries, After(maxRetries, start, es[..|es| - 1]), es[|es| - 1], start);
    }
  }

  lemma {:induction false} MovesAreCommitsAndBumps(log: seq<Entry>)
    ensures Moves(log) == Commits(log) + Bumped(log)
  {
    if log != [] {
      MovesAreCommitsAndBumps(log[..|log| - 1]);
    }
  }

  /**
   In every interleaving: no commit or foreign write falls between a committed attempt's read
   and its commit, commits read ever larger versions (so no two read the same), and the
   version is the initial one plus the commits plus what others wrote.
   */
  lemma CommitsAreSerial(maxRetries: nat, start: int, es: seq<Event>)
    ensures var s := After(maxRetries, start, es);
            && (forall i: nat :: i < |s.log| ==> Undisturbed(s.log, i, start))
            && (forall i, j :: 0 <= i < j < |s.log| && s.log[i].Commit? && s.log[j].Commit? ==>
                  s.log[i].version < s.log[j].version)
            && s.version == start + Commits(s.log) + Bumped(s.log)
  {
    RowInvariantHolds(maxRetries, start, es);
    var s := After(maxRetries, start, es);
    MovesAreCommitsAndBumps(s.log);
    forall i: nat, j: nat | i < j < |s.log| && s.log[i].Commit? && s.log[j].Commit?
      ensures s.log[i].version < s.log[j].version
    {
      assert Undisturbed(s.log, i, start) && Undisturbed(s.log, j, start);
      MovesGrow(s.log, i, j);
    }
  }

  /** In every interleaving an update goes through exactly when nobody wrote since its read. */
  lemma UpdateSucceedsExactly(maxRetries: nat, start: int, es: seq<Event>, r: nat)
    requires PhaseOf(After(maxRetries, start, es), r).Ran?
    ensures var s := After(maxRetries, start, es);
            PhaseOf(Apply(maxRetries, s, TryUpdate(r)), r).Finished?
            <==> forall x :: PhaseOf(s, r).at < x < |s.log| ==> s.log[x].Read?
  {
    RowInvariantHolds(maxRetries, start, es);
    UnchangedExactly(After(maxRetries, start, es), r, start);
  }

  // ----- bounded attempts

  ghost predicate WithinRetries(maxRetries: nat, s: State) {
    forall r: nat ::
      match PhaseOf(s, r)
      case Waiting(a) => Reads(s.log, r) == a <= maxRetries
      case HasRead(a, _, _) => Reads(s.log, r) == a + 1 <= maxRetries
      case Ran(a, _, _) => Reads(s.log, r) == a + 1 <= maxRetries
      case Finished => Reads(s.log, r) <= maxRetries
      case GivenUp => Reads(s.log, r) <= maxRetries
  }

  lemma WithinRetriesStep(maxRetries: nat, s: State, e: Event)
    requires WithinRetries(maxRetries, s)
    ensures WithinRetries(maxRetries, Apply(maxRetries, s, e))
  {
    var s' := Apply(maxRetries, s, e);
    if |s'.log| > |s.log| {
      MovesAppend(s.log, s'.log[|s.log|]);
      assert s'.log == s.log + [s'.log[|s.log|]];
    }
  }

  /** No call reads, and hence runs its handler, more often than its limit. */
  lemma {:induction false} AttemptsAreBounded(maxRetries: nat, start: int, es: seq<Event>)
    ensures WithinRetries(maxRetries, After(maxRetries, start, es))
    ensures forall r: nat :: Reads(After(maxRetries, start, es).log, r) <= maxRetries
  {
    if es != [] {
      AttemptsAreBounded(maxRetries, start, es[..|es| - 1]);
      WithinRetriesStep(maxRetries, After(maxRetries, start, es[..|es| - 1]), es[|es| - 1]);
    }
    var s := After(maxRetries, start, es);
    forall r: nat
      ensures Reads(s.log, r) <= maxRetries
    {
      assert PhaseOf(s, r) == PhaseOf(s, r);
    }
  }

  // ----- one call of the machine, with nobody but writers of the row around

  /** One attempt: the read, what others write meanwhile, the handler, the update. */
  function Round(maxRetries: nat, s: State, r: nat, a: Attempt): State {
    var s1 := Apply(maxRetries, s, ReadVersion(r));
    var s2 := Apply(maxRetries, s1, OtherWrite(a.bumps));
    var s3 := Apply(maxRetries, s2, RunHandler(r, a.handler));
    Apply(maxRetries, s3, TryUpdate(r))
  }

  /** The states before and after each attempt of a call that nobody but writers of the row interrupts. */
  ghost predicate RunsAlone(maxRetries: nat, states: seq<State>, r: nat, attempts: seq<Attempt>) {
    && |states| == |attempts| + 1
    && forall k :: 0 <= k < |attempts| ==> IsRound(maxRetries, states, r, attempts, k)
  }

  ghost predicate IsRound(maxRetries: nat, states: seq<State>, r: nat, attempts: seq<Attempt>, k: int)
    requires 0 <= k < |attempts| && |states| == |attempts| + 1
  {
    states[k + 1] == Round(maxRetries, states[k], r, attempts[k])
  }

  /** How an attempt leaves the call that makes it. */
  function PhaseAfter(a: Attempt, i: nat, maxRetries: nat): Phase {
    if a.handler.Returned? && a.bumps == 0 then Finished
    else if a.handler == Failed(false) then GivenUp
    else if i + 1 < maxRetries then Waiting(i + 1)
    else GivenUp
  }

  lemma OneRound(maxRetries: nat, s: State, s': State, r: nat, a: Attempt, i: nat)
    requires PhaseOf(s, r) == Waiting(i) && i < maxRetries && s' == Round(maxRetries, s, r, a)
    ensures s'.version == s.version + a.bumps + (if a.handler.Returned? && a.bumps == 0 then 1 else 0)
    ensures PhaseOf(s', r) == PhaseAfter(a, i, maxRetries)
  {
  }

  /** An attempt that commits, and one that does not. */
  lemma AttemptEnds(maxRetries: nat, states: seq<State>, r: nat, attempts: seq<Attempt>, i: nat)
    requires RunsAlone(maxRetries, states, r, attempts) && i < |attempts| && i < maxRetries
    requires PhaseOf(states[i], r) == Waiting(i)
    ensures PhaseOf(states[i + 1], r) == PhaseAfter(attempts[i], i, maxRetries)
    ensures states[i + 1].version
            == states[i].version + attempts[i].bumps
               + (if attempts[i].handler.Returned? && attempts[i].bumps == 0 then 1 else 0)
  {
    assert IsRound(maxRetries, states, r, attempts, i);
    OneRound(maxRetries, states[i], states[i + 1], r, attempts[i], i);
  }

  /** A call that only met conflicts, within its limit, reads again. */
  lemma {:induction false} ConflictsReadAgain(maxRetries: nat, states: seq<State>, r: nat,
                                              attempts: seq<Attempt>, n: nat)
    requires RunsAlone(maxRetries, states, r, attempts) && PhaseOf(states[0], r) == Waiting(0)
    requires n <= |attempts| && n < maxRetries && forall i :: 0 <= i < n ==> Conflicts(attempts[i])
    ensures PhaseOf(states[n], r) == Waiting(n)
    ensures states[n].version == states[0].version + Bumps(attempts, n)
  {
    if n > 0 {
      ConflictsReadAgain(maxRetries, states, r, attempts, n - 1);
      AttemptEnds(maxRetries, states, r, attempts, n - 1);
      assert Conflicts(attempts[n - 1]);
    }
  }

  /**
   An uninterrupted call of the machine ends as the method says: after the first attempt that is
   no conflict, or the last allowed one, with the same version, committed in the same case.
   */
  lemma {:induction false} CallEndsAsTheMethod(maxRetries: nat, states: seq<State>, r: nat, attempts: seq<Attempt>)
    requires RunsAlone(maxRetries, states, r, attempts) && PhaseOf(states[0], r) == Waiting(0)
    requires 0 < |attempts| <= maxRetries
    requires forall i :: 0 <= i < |attempts| - 1 ==> Conflicts(attempts[i])
    requires |attempts| == maxRetries || !Conflicts(attempts[|attempts| - 1])
    ensures var calls := |attempts|;
            var committed := attempts[calls - 1].handler.Returned? && attempts[calls - 1].bumps == 0;
            && PhaseOf(states[calls], r) == (if committed then Finished else GivenUp)
            && states[calls].version == states[0].version + Bumps(attempts, calls) + if committed then 1 else 0
  {
    ConflictsReadAgain(maxRetries, states, r, attempts, |attempts| - 1);
    AttemptEnds(maxRetries, states, r, attempts, |attempts| - 1);
  }
}
