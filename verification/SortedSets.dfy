/**
 The in-memory sorted set behind `zadd`, `zrem`, `zscore`, `zrank`, `zrange` and `zcard`:
 a list of member/score pairs in insertion order, sorted by score on every read.
 Members are the integer ids that the source renders as decimal strings.
 */
module SortedSets {
  import opened Common

  datatype Entry = Entry(member: int, score: int)

  type Entries = seq<Entry>

  ghost predicate Unique(es: Entries) {
    forall i, j :: 0 <= i < j < |es| ==> es[i].member != es[j].member
  }

  ghost predicate Has(es: Entries, member: int) {
    exists i :: 0 <= i < |es| && es[i].member == member
  }

  /** Position of a member, or the length of the list when it is absent. */
  ghost function IndexOf(es: Entries, member: int): (i: nat) {
    if Has(es, member) then
      var i :| 0 <= i < |es| && es[i].member == member;
      i
    else
      |es|
  }

  /** `Map.set`: overwrites in place, or appends. */
  ghost function Put(es: Entries, member: int, score: int): Entries {
    var i := IndexOf(es, member);
    if i < |es| then es[i := Entry(member, score)] else es + [Entry(member, score)]
  }

  /** `Map.delete`. */
  ghost function Delete(es: Entries, member: int): Entries {
    var i := IndexOf(es, member);
    if i < |es| then es[..i] + es[i + 1..] else es
  }

  /** The score held for a member, 0 when it is absent. */
  ghost function ScoreOr0(es: Entries, member: int): int {
    var i := IndexOf(es, member);
    if i < |es| then es[i].score else 0
  }

  /** Inserts an entry after every entry whose score is not larger. */
  function Insert(sorted: Entries, e: Entry): Entries {
    if sorted == [] || sorted[|sorted| - 1].score <= e.score then sorted + [e]
    else Insert(sorted[..|sorted| - 1], e) + [sorted[|sorted| - 1]]
  }

  /** `sort((a, b) => a[1] - b[1])`: the stable ascending sort. */
  function SortByScore(es: Entries): Entries {
    if es == [] then [] else Insert(SortByScore(es[..|es| - 1]), es[|es| - 1])
  }

  // ----- what the sort means

  /** By score, ties by position in `es`. */
  ghost predicate Precedes(es: Entries, a: Entry, b: Entry) {
    a.score < b.score || (a.score == b.score && IndexOf(es, a.member) < IndexOf(es, b.member))
  }

  ghost predicate StablySorted(es: Entries, sorted: Entries) {
    forall i, j :: 0 <= i < j < |sorted| ==> Precedes(es, sorted[i], sorted[j])
  }

  lemma IndexOfAt(es: Entries, i: nat)
    requires Unique(es) && i < |es|
    ensures IndexOf(es, es[i].member) == i
  {
    assert Has(es, es[i].member);
  }

  lemma {:induction false} InsertContents(sorted: Entries, e: Entry)
    ensures |Insert(sorted, e)| == |sorted| + 1
    ensures multiset(Insert(sorted, e)) == multiset(sorted) + multiset{e}
    ensures forall x :: x in Insert(sorted, e) <==> x in sorted || x == e
  {
    if sorted == [] || sorted[|sorted| - 1].score <= e.score {
    } else {
      var n := |sorted| - 1;
      InsertContents(sorted[..n], e);
      assert sorted == sorted[..n] + [sorted[n]];
    }
  }

  lemma {:induction false} SortContents(es: Entries)
    ensures |SortByScore(es)| == |es|
    ensures multiset(SortByScore(es)) == multiset(es)
    ensures forall x :: x in SortByScore(es) <==> x in es
  {
    if es != [] {
      var n := |es| - 1;
      SortContents(es[..n]);
      InsertContents(SortByScore(es[..n]), es[n]);
      assert es == es[..n] + [es[n]];
    }
  }

  /** Inserting the youngest entry keeps the stable order. */
  lemma {:induction false} InsertSorted(es: Entries, sorted: Entries, e: Entry)
    requires StablySorted(es, sorted)
    requires forall x :: x in sorted ==> IndexOf(es, x.member) < IndexOf(es, e.member)
    ensures StablySorted(es, Insert(sorted, e))
  {
    if sorted == [] || sorted[|sorted| - 1].score <= e.score {
      var out := sorted + [e];
      forall i, j | 0 <= i < j < |out|
        ensures Precedes(es, out[i], out[j])
      {
        if j == |sorted| {
          assert out[i] in sorted;
          assert i < |sorted| - 1 ==> Precedes(es, sorted[i], sorted[|sorted| - 1]);
        }
      }
    } else {
      var n := |sorted| - 1;
      var rest := Insert(sorted[..n], e);
      InsertSorted(es, sorted[..n], e);
      InsertContents(sorted[..n], e);
      var out := rest + [sorted[n]];
      forall i, j | 0 <= i < j < |out|
        ensures Precedes(es, out[i], out[j])
      {
        if j == |rest| {
          assert rest[i] in rest;
          if rest[i] != e {
            var k :| 0 <= k < n && sorted[k] == rest[i];
            assert Precedes(es, sorted[k], sorted[n]);
          }
        }
      }
    }
  }

  /** Sorting keeps exactly the entries and orders them by score, ties by age. */
  lemma SortCorrect(es: Entries)
    requires Unique(es)
    ensures multiset(SortByScore(es)) == multiset(es)
    ensures Unique(SortByScore(es))
    ensures StablySorted(es, SortByScore(es))
  {
    SortContents(es);
    SortStable(es, |es|);
    assert es[..|es|] == es;
    var out := SortByScore(es);
    forall i, j | 0 <= i < j < |out|
      ensures out[i].member != out[j].member
    {
      assert Precedes(es, out[i], out[j]);
      assert out[i] in es && out[j] in es;
      var a :| 0 <= a < |es| && es[a] == out[i];
      var b :| 0 <= b < |es| && es[b] == out[j];
      IndexOfAt(es, a);
      IndexOfAt(es, b);
    }
  }

  lemma OlderEntry(es: Entries, n: nat, x: Entry)
    requires Unique(es) && n < |es| && x in es[..n]
    ensures IndexOf(es, x.member) < IndexOf(es, es[n].member)
  {
    var k :| 0 <= k < n && es[..n][k] == x;
    IndexOfAt(es, k);
    IndexOfAt(es, n);
  }

  lemma SortedAreOlder(es: Entries, n: nat, sorted: Entries)
    requires Unique(es) && n < |es| && sorted == SortByScore(es[..n])
    ensures forall x :: x in sorted ==> IndexOf(es, x.member) < IndexOf(es, es[n].member)
  {
    SortContents(es[..n]);
    forall x | x in sorted
      ensures IndexOf(es, x.member) < IndexOf(es, es[n].member)
    {
      OlderEntry(es, n, x);
    }
  }

  lemma {:induction false} SortStable(es: Entries, n: nat)
    requires Unique(es) && n <= |es|
    ensures StablySorted(es, SortByScore(es[..n]))
  {
    if n > 0 {
      var sorted := SortByScore(es[..n - 1]);
      SortStable(es, n - 1);
      SortedAreOlder(es, n - 1, sorted);
      InsertSorted(es, sorted, es[n - 1]);
      assert es[..n][..n - 1] == es[..n - 1];
    }
  }

  lemma FirstIsLeast(es: Entries, a: Entries, x: Entry)
    requires StablySorted(es, a) && x in a
    ensures a[0] == x || Precedes(es, a[0], x)
  {
    var i :| 0 <= i < |a| && a[i] == x;
    assert i == 0 || Precedes(es, a[0], a[i]);
  }

  lemma FirstsAgree(es: Entries, a: Entries, b: Entries)
    requires StablySorted(es, a) && StablySorted(es, b)
    requires multiset(a) == multiset(b) && a != []
    ensures b != [] && a[0] == b[0]
  {
    assert a[0] in multiset(b);
    assert b[0] in multiset(a);
    FirstIsLeast(es, a, b[0]);
    FirstIsLeast(es, b, a[0]);
  }

  lemma TailMultiset(a: Entries)
    requires a != []
    ensures multiset(a[1..]) == multiset(a) - multiset{a[0]}
  {
    assert a == [a[0]] + a[1..];
  }

  /** The stable order leaves no choice: any stably sorted listing is the sort. */
  lemma {:induction false} SortDetermined(es: Entries, a: Entries, b: Entries)
    requires StablySorted(es, a) && StablySorted(es, b)
    requires multiset(a) == multiset(b)
    ensures a == b
  {
    if a == [] {
      assert |multiset(b)| == 0;
    } else {
      FirstsAgree(es, a, b);
      TailMultiset(a);
      TailMultiset(b);
      TailSorted(es, a);
      TailSorted(es, b);
      SortDetermined(es, a[1..], b[1..]);
      assert a == [a[0]] + a[1..] && b == [b[0]] + b[1..];
    }
  }

  lemma TailSorted(es: Entries, a: Entries)
    requires StablySorted(es, a) && a != []
    ensures StablySorted(es, a[1..])
  {
    forall i, j | 0 <= i < j < |a[1..]|
      ensures Precedes(es, a[1..][i], a[1..][j])
    {
      assert a[1..][i] == a[i + 1] && a[1..][j] == a[j + 1];
    }
  }

  // ----- what updates do

  /** A write changes one score, adds at most one member at the end, and moves nobody. */
  lemma PutMeaning(es: Entries, member: int, score: int)
    requires Unique(es)
    ensures var es' := Put(es, member, score);
            && Unique(es')
            && Has(es', member) && es'[IndexOf(es', member)] == Entry(member, score)
            && (forall m :: m != member ==> Has(es', m) == Has(es, m) && ScoreOr0(es', m) == ScoreOr0(es, m))
            && (forall m :: Has(es, m) ==> IndexOf(es', m) == IndexOf(es, m))
            && (!Has(es, member) ==> IndexOf(es', member) == |es|)
            && |es'| == if Has(es, member) then |es| else |es| + 1
  {
    var es' := Put(es, member, score);
    var i := IndexOf(es, member);
    assert Unique(es');
    forall k: nat | k < |es'|
      ensures IndexOf(es', es'[k].member) == k
    {
      IndexOfAt(es', k);
    }
    assert es'[i] == Entry(member, score);
    forall m | m != member || Has(es, m)
      ensures Has(es', m) == Has(es, m)
      ensures m != member ==> ScoreOr0(es', m) == ScoreOr0(es, m)
      ensures Has(es, m) ==> IndexOf(es', m) == IndexOf(es, m)
    {
      if Has(es', m) {
        var k := IndexOf(es', m);
        assert k < |es| && es[k].member == m;
        IndexOfAt(es, k);
      }
      if Has(es, m) {
        assert es'[IndexOf(es, m)].member == m;
      }
    }
  }

  lemma PutAdds(es: Entries, member: int, score: int)
    requires Unique(es)
    ensures Unique(Put(es, member, score)) && Has(Put(es, member, score), member)
  {
    PutMeaning(es, member, score);
  }

  /** A delete drops the member and keeps everyone else, in the same order. */
  lemma DeleteMeaning(es: Entries, member: int)
    requires Unique(es)
    ensures var es' := Delete(es, member);
            && Unique(es')
            && !Has(es', member)
            && (forall m :: m != member ==> Has(es', m) == Has(es, m) && ScoreOr0(es', m) == ScoreOr0(es, m))
            && (forall m, m' :: Has(es', m) && Has(es', m') ==>
                  (IndexOf(es', m) < IndexOf(es', m') <==> IndexOf(es, m) < IndexOf(es, m')))
            && |es'| == if Has(es, member) then |es| - 1 else |es|
  {
    var es' := Delete(es, member);
    var i := IndexOf(es, member);
    if i < |es| {
      forall k: nat | k < |es'|
        ensures es'[k] == es[if k < i then k else k + 1]
      {
      }
      assert Unique(es');
      forall m | m != member
        ensures Has(es', m) == Has(es, m)
        ensures Has(es, m) ==> IndexOf(es', m) == (var k := IndexOf(es, m); if k < i then k else k - 1)
        ensures ScoreOr0(es', m) == ScoreOr0(es, m)
      {
        if Has(es', m) {
          var k := IndexOf(es', m);
          assert es'[k] == es[if k < i then k else k + 1];
        }
        if Has(es, m) {
          var k := IndexOf(es, m);
          var k' := if k < i then k else k - 1;
          assert es'[k'] == es[k];
          IndexOfAt(es', k');
        }
      }
    }
  }

  // ----- histories of writes

  datatype Write = ZAdd(member: int, score: int) | ZRem(member: int)

  ghost function ApplyWrite(es: Entries, w: Write): Entries {
    match w
    case ZAdd(m, s) => Put(es, m, s)
    case ZRem(m) => Delete(es, m)
  }

  /** The stored list after a history of writes to a key that was absent. */
  ghost function Replay(log: seq<Write>): Entries {
    if log == [] then [] else ApplyWrite(Replay(log[..|log| - 1]), log[|log| - 1])
  }

  /** The score of the last write to a member, none when that write removed it. */
  function Latest(log: seq<Write>, member: int): Option<int> {
    if log == [] then None
    else
      var w := log[|log| - 1];
      if w.member != member then Latest(log[..|log| - 1], member)
      else if w.ZAdd? then Some(w.score)
      else None
  }

  /** When the current membership began: the first addition since the last removal. */
  function Birth(log: seq<Write>, member: int): Option<nat> {
    if log == [] then None
    else
      var before := Birth(log[..|log| - 1], member);
      var w := log[|log| - 1];
      if w.member != member then before
      else if w.ZRem? then None
      else if before.Some? then before
      else Some(|log| - 1)
  }

  lemma {:induction false} BirthBound(log: seq<Write>, member: int)
    ensures Birth(log, member).Some? ==> Birth(log, member).value < |log|
    ensures Birth(log, member).Some? <==> Latest(log, member).Some?
  {
    if log != [] {
      BirthBound(log[..|log| - 1], member);
    }
  }

  /** A list agrees with a history when it holds the last scores, oldest membership first. */
  ghost predicate Agrees(es: Entries, log: seq<Write>) {
    && Unique(es)
    && (forall m :: Has(es, m) == Latest(log, m).Some?)
    && (forall m :: Has(es, m) ==> ScoreOr0(es, m) == Latest(log, m).value)
    && (forall m :: Has(es, m) ==> Birth(log, m).Some? && Birth(log, m).value < |log|)
    && (forall m, m' :: Has(es, m) && Has(es, m') && IndexOf(es, m) < IndexOf(es, m') ==>
          Birth(log, m).value < Birth(log, m').value)
  }

  lemma AgreesAfterAdd(es: Entries, log: seq<Write>, member: int, score: int)
    requires Agrees(es, log)
    ensures Agrees(Put(es, member, score), log + [ZAdd(member, score)])
  {
    var w := ZAdd(member, score);
    var log' := log + [w];
    assert log'[..|log|] == log && log'[|log|] == w;
    BirthBound(log, member);
    PutMeaning(es, member, score);
  }

  lemma AgreesAfterRemove(es: Entries, log: seq<Write>, member: int)
    requires Agrees(es, log)
    ensures Agrees(Delete(es, member), log + [ZRem(member)])
  {
    var w := ZRem(member);
    var log' := log + [w];
    assert log'[..|log|] == log && log'[|log|] == w;
    DeleteMeaning(es, member);
    var es' := Delete(es, member);
    forall m
      ensures Has(es', m) == Latest(log', m).Some?
      ensures Has(es', m) ==> ScoreOr0(es', m) == Latest(log', m).value && Birth(log', m) == Birth(log, m)
    {
      if m != member {
        assert Latest(log', m) == Latest(log, m) && Birth(log', m) == Birth(log, m);
      }
    }
    forall m, m' | Has(es', m) && Has(es', m') && IndexOf(es', m) < IndexOf(es', m')
      ensures Birth(log', m).value < Birth(log', m').value
    {
      assert IndexOf(es, m) < IndexOf(es, m');
    }
  }

  /** After any history the list agrees with it. */
  lemma {:induction false} ReplayMeaning(log: seq<Write>)
    ensures Agrees(Replay(log), log)
  {
    if log != [] {
      var n := |log| - 1;
      ReplayMeaning(log[..n]);
      assert log == log[..n] + [log[n]];
      match log[n]
      case ZAdd(m, s) => AgreesAfterAdd(Replay(log[..n]), log[..n], m, s);
      case ZRem(m) => AgreesAfterRemove(Replay(log[..n]), log[..n], m);
    }
  }

  /** By last score, ties by when the membership began. */
  ghost predicate ListedBefore(log: seq<Write>, a: Entry, b: Entry) {
    && Birth(log, a.member).Some? && Birth(log, b.member).Some?
    && (a.score < b.score
        || (a.score == b.score && Birth(log, a.member).value < Birth(log, b.member).value))
  }

  lemma EntryIffLatest(es: Entries, log: seq<Write>, e: Entry)
    requires Agrees(es, log)
    ensures e in es <==> Latest(log, e.member) == Some(e.score)
  {
    if e in es {
      var k :| 0 <= k < |es| && es[k] == e;
      IndexOfAt(es, k);
    } else if Has(es, e.member) {
      assert es[IndexOf(es, e.member)].member == e.member;
    }
  }

  lemma OrderFromAges(es: Entries, log: seq<Write>, a: Entry, b: Entry)
    requires Agrees(es, log) && Has(es, a.member) && Has(es, b.member) && Precedes(es, a, b)
    ensures ListedBefore(log, a, b)
  {
  }

  /**
   The rank of a member is its index in the full range, and the size is the range's length:
   every current member stands there exactly once.
   */
  lemma RankAndSizeAfterHistory(log: seq<Write>)
    ensures var out := SortByScore(Replay(log));
            && |out| == |Replay(log)|
            && (forall m :: Latest(log, m).Some? <==> Has(out, m))
            && (forall k: nat :: k < |out| ==> IndexOf(out, out[k].member) == k)
  {
    var es := Replay(log);
    var out := SortByScore(es);
    ReplayMeaning(log);
    SortContents(es);
    SortCorrect(es);
    RangeAfterHistory(log);
    forall m
      ensures Latest(log, m).Some? <==> Has(out, m)
    {
      assert Has(out, m) ==> out[IndexOf(out, m)] in out;
      if Latest(log, m).Some? {
        StandsInRange(log, m);
      }
    }
    forall k: nat | k < |out|
      ensures IndexOf(out, out[k].member) == k
    {
      IndexOfAt(out, k);
    }
  }

  /**
   After any history of additions and removals, the full range lists exactly the current
   members with their last scores, by score and then by when their membership began.
   */
  lemma RangeAfterHistory(log: seq<Write>)
    ensures var out := SortByScore(Replay(log));
            && (forall e :: e in out <==> Latest(log, e.member) == Some(e.score))
            && (forall i, j :: 0 <= i < j < |out| ==> ListedBefore(log, out[i], out[j]))
  {
    ReplayMeaning(log);
    var es := Replay(log);
    var out := SortByScore(es);
    SortContents(es);
    SortCorrect(es);
    forall e
      ensures e in out <==> Latest(log, e.member) == Some(e.score)
    {
      EntryIffLatest(es, log, e);
    }
    forall i, j | 0 <= i < j < |out|
      ensures ListedBefore(log, out[i], out[j])
    {
      assert out[i] in es && out[j] in es;
      assert Precedes(es, out[i], out[j]);
      OrderFromAges(es, log, out[i], out[j]);
    }
  }

  /** Writing a present member again: its membership keeps its age, the others keep everything. */
  lemma ReAdded(log: seq<Write>, member: int, score: int, m: int)
    requires Latest(log, member).Some?
    ensures var log' := log + [ZAdd(member, score)];
            && Birth(log', m) == Birth(log, m)
            && Latest(log', m) == if m == member then Some(score) else Latest(log, m)
  {
    var log' := log + [ZAdd(member, score)];
    assert log'[..|log'| - 1] == log;
    BirthBound(log, member);
  }

  /** A member of the history stands in the range with its last score. */
  lemma StandsInRange(log: seq<Write>, m: int)
    requires Latest(log, m).Some?
    ensures var out := SortByScore(Replay(log));
            IndexOf(out, m) < |out| && out[IndexOf(out, m)] == Entry(m, Latest(log, m).value)
  {
    RangeAfterHistory(log);
    var out := SortByScore(Replay(log));
    assert Entry(m, Latest(log, m).value) in out;
    assert Has(out, m);
    assert out[IndexOf(out, m)] in out;
  }

  /**
   After writing a present member again, another member ranks before it exactly when its score
   is smaller than the new one, or equal with an older membership: the tie position stays.
   */
  lemma ReAddKeepsTiePosition(log: seq<Write>, member: int, score: int, other: int)
    requires Latest(log, member).Some? && Latest(log, other).Some? && other != member
    ensures var out := SortByScore(Replay(log + [ZAdd(member, score)]));
            && IndexOf(out, member) < |out| && IndexOf(out, other) < |out|
            && Birth(log, member).Some? && Birth(log, other).Some?
            && (IndexOf(out, other) < IndexOf(out, member) <==>
                  Latest(log, other).value < score
                  || (Latest(log, other).value == score && Birth(log, other).value < Birth(log, member).value))
  {
    var log' := log + [ZAdd(member, score)];
    ReAdded(log, member, score, member);
    ReAdded(log, member, score, other);
    BirthBound(log, member);
    BirthBound(log, other);
    StandsInRange(log', member);
    StandsInRange(log', other);
    RangeAfterHistory(log');
    var out := SortByScore(Replay(log'));
    var i, j := IndexOf(out, other), IndexOf(out, member);
    assert i < j ==> ListedBefore(log', out[i], out[j]);
    assert j < i ==> ListedBefore(log', out[j], out[i]);
  }
}
