/**
 * The wait-queue order (`sortQueue`): ascending number of games played, a player
 * without an entry counting as 0, ties broken by ascending timestamp. The comparator
 * is handed to `Array.prototype.sort`, which is stable, so entries with equal keys
 * keep their relative order; the sort is modelled as a stable insertion sort.
 */
module Fairness {
  import opened Seqs

  /** `playerStats[p] || 0`. */
  function Games<P>(stats: map<P, nat>, p: P): nat {
    if p in stats then stats[p] else 0
  }

  /** `playerTimestamps[p]`; every queued player has one (see Rotation.Engine.Valid). */
  function Stamp<P>(stamps: map<P, int>, p: P): int {
    if p in stamps then stamps[p] else 0
  }

  /** The comparator returns a value `<= 0`: `a` may stand before `b`. */
  predicate Before<P>(stats: map<P, nat>, stamps: map<P, int>, a: P, b: P) {
    Games(stats, a) < Games(stats, b)
    || (Games(stats, a) == Games(stats, b) && Stamp(stamps, a) <= Stamp(stamps, b))
  }

  predicate Sorted<P>(q: seq<P>, stats: map<P, nat>, stamps: map<P, int>) {
    forall i, j {:trigger Before(stats, stamps, q[i], q[j])} :: 0 <= i < j < |q| ==> Before(stats, stamps, q[i], q[j])
  }

  /** Puts `x` in front of the first entry it may stand before. */
  function Insert<P>(x: P, q: seq<P>, stats: map<P, nat>, stamps: map<P, int>): (r: seq<P>)
    ensures multiset(r) == multiset(q) + multiset{x}
  {
    if q == [] || Before(stats, stamps, x, q[0]) then [x] + q
    else
      assert q == [q[0]] + q[1..];
      [q[0]] + Insert(x, q[1..], stats, stamps)
  }

  lemma {:induction false} InsertSorted<P>(x: P, q: seq<P>, stats: map<P, nat>, stamps: map<P, int>)
    requires Sorted(q, stats, stamps)
    ensures Sorted(Insert(x, q, stats, stamps), stats, stamps)
  {
    if q == [] || Before(stats, stamps, x, q[0]) {
      if q != [] {
        forall i, j | 0 <= i < j < |[x] + q| ensures Before(stats, stamps, ([x] + q)[i], ([x] + q)[j]) {
          if i == 0 && j > 1 {
            assert Before(stats, stamps, q[0], q[j - 1]);
          }
        }
      }
    } else {
      var rest := Insert(x, q[1..], stats, stamps);
      assert Sorted(q[1..], stats, stamps);
      InsertSorted(x, q[1..], stats, stamps);
      assert q == [q[0]] + q[1..];
      forall j | 0 <= j < |rest| ensures Before(stats, stamps, q[0], rest[j]) {
        assert rest[j] in multiset(rest);
        if rest[j] != x {
          assert rest[j] in q[1..];
          var k :| 0 <= k < |q[1..]| && q[1..][k] == rest[j];
          assert Before(stats, stamps, q[0], q[k + 1]);
        }
      }
      assert Insert(x, q, stats, stamps) == [q[0]] + rest;
    }
  }

  /** `updatedQueue.sort(comparator)`: a sorted permutation of the queue. */
  function SortQueue<P>(q: seq<P>, stats: map<P, nat>, stamps: map<P, int>): (r: seq<P>)
    ensures multiset(r) == multiset(q)
    ensures Sorted(r, stats, stamps)
  {
    if q == [] then []
    else
      var rest := SortQueue(q[1..], stats, stamps);
      InsertSorted(q[0], rest, stats, stamps);
      assert multiset(q) == multiset(q[1..]) + multiset{q[0]} by {
        assert q == [q[0]] + q[1..];
      }
      Insert(q[0], rest, stats, stamps)
  }

  /** Sorting a queue that is already in order leaves it as it is. */
  lemma {:induction false} SortQueueFixpoint<P>(q: seq<P>, stats: map<P, nat>, stamps: map<P, int>)
    requires Sorted(q, stats, stamps)
    ensures SortQueue(q, stats, stamps) == q
  {
    if q != [] {
      SortQueueFixpoint(q[1..], stats, stamps);
      assert q == [q[0]] + q[1..];
    }
  }

  /** The entries of `q` whose key is exactly (`games`, `stamp`), in order. */
  function WithKey<P>(q: seq<P>, stats: map<P, nat>, stamps: map<P, int>, games: nat, stamp: int): seq<P> {
    if q == [] then []
    else
      (if Games(stats, q[0]) == games && Stamp(stamps, q[0]) == stamp then [q[0]] else [])
      + WithKey(q[1..], stats, stamps, games, stamp)
  }

  lemma {:induction false} InsertWithKey<P>(x: P, q: seq<P>, stats: map<P, nat>, stamps: map<P, int>, games: nat, stamp: int)
    ensures WithKey(Insert(x, q, stats, stamps), stats, stamps, games, stamp)
         == (if Games(stats, x) == games && Stamp(stamps, x) == stamp then [x] else [])
            + WithKey(q, stats, stamps, games, stamp)
  {
    if q == [] || Before(stats, stamps, x, q[0]) {
      assert ([x] + q)[1..] == q;
    } else {
      InsertWithKey(x, q[1..], stats, stamps, games, stamp);
      var rest := Insert(x, q[1..], stats, stamps);
      assert ([q[0]] + rest)[1..] == rest;
    }
  }

  /**
   * Stability: among entries with the same number of games and the same timestamp,
   * the sorted queue keeps the order they had before.
   */
  lemma {:induction false} SortQueueStable<P>(q: seq<P>, stats: map<P, nat>, stamps: map<P, int>, games: nat, stamp: int)
    ensures WithKey(SortQueue(q, stats, stamps), stats, stamps, games, stamp) == WithKey(q, stats, stamps, games, stamp)
  {
    if q != [] {
      SortQueueStable(q[1..], stats, stamps, games, stamp);
      InsertWithKey(q[0], SortQueue(q[1..], stats, stamps), stats, stamps, games, stamp);
    }
  }

  /** In a sorted queue everyone who has never played stands before everyone who has. */
  lemma NeverPlayedFirst<P>(q: seq<P>, stats: map<P, nat>, stamps: map<P, int>, i: nat, j: nat)
    requires Sorted(q, stats, stamps)
    requires i < |q| && j < |q|
    requires Games(stats, q[i]) == 0 && Games(stats, q[j]) > 0
    ensures i < j
  {
    assert j < i ==> Before(stats, stamps, q[j], q[i]);
  }

  /** Deleting entries from a sorted queue leaves it sorted. */
  lemma {:induction false} SortedSubsequence<P>(a: seq<P>, b: seq<P>, stats: map<P, nat>, stamps: map<P, int>)
    requires IsSubsequence(a, b) && Sorted(b, stats, stamps)
    ensures Sorted(a, stats, stamps)
    decreases |b|
  {
    if a != [] {
      assert Sorted(b[1..], stats, stamps);
      if a[0] == b[0] && IsSubsequence(a[1..], b[1..]) {
        SortedSubsequence(a[1..], b[1..], stats, stamps);
        SubsequenceMembers(a[1..], b[1..]);
        forall i, j | 0 <= i < j < |a| ensures Before(stats, stamps, a[i], a[j]) {
          if i == 0 {
            assert a[j] == a[1..][j - 1];
            assert a[j] in b[1..];
            var k :| 0 <= k < |b[1..]| && b[1..][k] == a[j];
            assert Before(stats, stamps, b[0], b[k + 1]);
          } else {
            assert a[i] == a[1..][i - 1] && a[j] == a[1..][j - 1];
          }
        }
      } else {
        SortedSubsequence(a, b[1..], stats, stamps);
      }
    }
  }

  /** Only the keys of the queued entries matter for the order. */
  lemma SortedAgree<P>(q: seq<P>, stats: map<P, nat>, stamps: map<P, int>, stats': map<P, nat>, stamps': map<P, int>)
    requires Sorted(q, stats, stamps)
    requires forall p :: p in q ==> Games(stats, p) == Games(stats', p) && Stamp(stamps, p) == Stamp(stamps', p)
    ensures Sorted(q, stats', stamps')
  {
    forall i, j | 0 <= i < j < |q| ensures Before(stats', stamps', q[i], q[j]) {
      assert q[i] in q && q[j] in q;
      assert Before(stats, stamps, q[i], q[j]);
    }
  }
}
