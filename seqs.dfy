/**
 * Sequence vocabulary shared by the queue, the selection and the courts:
 * duplicate freedom, order-preserving subsequences, the `filter(x => !xs.includes(x))`
 * idiom, and the add-if-absent / remove-if-present toggle of a selection list.
 */
module Seqs {

  /** No value occurs twice. */
  predicate NoDup<T(==)>(s: seq<T>) {
    forall i, j :: 0 <= i < j < |s| ==> s[i] != s[j]
  }

  /** `a` is obtained from `b` by deleting entries, keeping the order of the rest. */
  predicate IsSubsequence<T(==)>(a: seq<T>, b: seq<T>)
    decreases |b|
  {
    if a == [] then true
    else if b == [] then false
    else (a[0] == b[0] && IsSubsequence(a[1..], b[1..])) || IsSubsequence(a, b[1..])
  }

  lemma {:induction false} SubsequenceMembers<T>(a: seq<T>, b: seq<T>)
    requires IsSubsequence(a, b)
    ensures forall y :: y in a ==> y in b
    decreases |b|
  {
    if a != [] {
      assert b != [];
      if a[0] == b[0] && IsSubsequence(a[1..], b[1..]) {
        SubsequenceMembers(a[1..], b[1..]);
        forall y | y in a ensures y in b {
          if y != a[0] {
            assert y in a[1..];
          }
        }
      } else {
        SubsequenceMembers(a, b[1..]);
      }
    }
  }

  /** A suffix is a subsequence. */
  lemma {:induction false} SuffixIsSubsequence<T>(s: seq<T>, i: nat)
    requires i <= |s|
    ensures IsSubsequence(s[i..], s)
    decreases i
  {
    if i == 0 {
      SelfSubsequence(s);
    } else {
      SuffixIsSubsequence(s[1..], i - 1);
      assert s[1..][i - 1..] == s[i..];
    }
  }

  lemma {:induction false} SelfSubsequence<T>(s: seq<T>)
    ensures IsSubsequence(s, s)
  {
    if s != [] {
      SelfSubsequence(s[1..]);
    }
  }

  /**
   * `s.filter(x => !xs.includes(x))`: every entry equal to a member of `xs` is
   * dropped, every other entry is kept, in order.
   */
  function FilterOut<T(==)>(s: seq<T>, xs: seq<T>): seq<T>
  {
    if s == [] then []
    else (if s[0] in xs then [] else [s[0]]) + FilterOut(s[1..], xs)
  }

  /** What the filter keeps: no copy of a member of `xs`, every copy of anything else. */
  lemma {:induction false} FilterOutCounts<T(!new)>(s: seq<T>, xs: seq<T>)
    ensures forall y :: multiset(FilterOut(s, xs))[y] == if y in xs then 0 else multiset(s)[y]
  {
    if s != [] {
      FilterOutCounts(s[1..], xs);
      assert s == [s[0]] + s[1..];
    }
  }

  /** The filter keeps the surviving entries in their original order. */
  lemma {:induction false} FilterOutIsSubsequence<T>(s: seq<T>, xs: seq<T>)
    ensures IsSubsequence(FilterOut(s, xs), s)
  {
    if s != [] {
      FilterOutIsSubsequence(s[1..], xs);
      var rest := FilterOut(s[1..], xs);
      if s[0] in xs {
        assert FilterOut(s, xs) == rest;
        if rest != [] {
          FilterOutMembers(s[1..], xs);
          assert rest[0] in rest;
          assert rest[0] != s[0];
        }
      } else {
        assert ([s[0]] + rest)[1..] == rest;
      }
    }
  }

  lemma {:induction false} FilterOutMembers<T>(s: seq<T>, xs: seq<T>)
    ensures forall y :: y in FilterOut(s, xs) ==> y in s && y !in xs
  {
    if s != [] {
      FilterOutMembers(s[1..], xs);
    }
  }

  /** Multiplicity view of duplicate freedom. */
  lemma {:induction false} NoDupMultiplicity<T>(s: seq<T>)
    ensures NoDup(s) <==> forall y :: multiset(s)[y] <= 1
  {
    if s != [] {
      NoDupMultiplicity(s[1..]);
      assert s == [s[0]] + s[1..];
      if NoDup(s) {
        assert NoDup(s[1..]) by {
          forall i, j | 0 <= i < j < |s[1..]| ensures s[1..][i] != s[1..][j] {
            assert s[i + 1] != s[j + 1];
          }
        }
        assert s[0] !in s[1..] by {
          forall k | 0 <= k < |s[1..]| ensures s[1..][k] != s[0] {
            assert s[k + 1] != s[0];
          }
        }
      }
      if forall y :: multiset(s)[y] <= 1 {
        forall y ensures multiset(s[1..])[y] <= 1 {
          assert multiset(s)[y] == multiset(s[1..])[y] + (if y == s[0] then 1 else 0);
        }
        assert multiset(s)[s[0]] <= 1;
        assert s[0] !in multiset(s[1..]);
        forall i, j | 0 <= i < j < |s| ensures s[i] != s[j] {
          if i == 0 {
            assert s[j] == s[1..][j - 1];
          } else {
            assert s[i] == s[1..][i - 1] && s[j] == s[1..][j - 1];
          }
        }
      }
    }
  }

  /**
   * Dropping from a duplicate-free list the members of a duplicate-free list of its
   * own entries removes exactly those entries: nothing is lost and nothing is added.
   */
  lemma FilterOutConserves<T(!new)>(s: seq<T>, xs: seq<T>)
    requires NoDup(s) && NoDup(xs)
    requires forall x :: x in xs ==> x in s
    ensures multiset(FilterOut(s, xs)) + multiset(xs) == multiset(s)
    ensures |FilterOut(s, xs)| + |xs| == |s|
  {
    NoDupMultiplicity(s);
    NoDupMultiplicity(xs);
    FilterOutCounts(s, xs);
    var r := FilterOut(s, xs);
    forall y ensures (multiset(r) + multiset(xs))[y] == multiset(s)[y] {
      if y in xs {
        assert y in multiset(xs) && y in multiset(s);
      } else {
        assert y !in multiset(xs);
      }
    }
    assert multiset(r) + multiset(xs) == multiset(s);
    assert |multiset(r) + multiset(xs)| == |multiset(s)|;
  }

  /** A list without a value is duplicate-free when the list was. */
  lemma FilterOutNoDup<T(!new)>(s: seq<T>, xs: seq<T>)
    ensures NoDup(s) ==> NoDup(FilterOut(s, xs))
  {
    NoDupMultiplicity(s);
    NoDupMultiplicity(FilterOut(s, xs));
    FilterOutCounts(s, xs);
  }

  /** Entries that are not in `xs` all survive the filter unchanged. */
  lemma {:induction false} FilterOutKeepsAll<T>(s: seq<T>, xs: seq<T>)
    requires forall i :: 0 <= i < |s| ==> s[i] !in xs
    ensures FilterOut(s, xs) == s
  {
    if s != [] {
      FilterOutKeepsAll(s[1..], xs);
    }
  }

  /**
   * The selection toggle: a present value is removed (`prev.filter(p => p !== x)`),
   * an absent one is appended at the end (`[...prev, x]`).
   */
  function Toggled<T(==,!new)>(sel: seq<T>, x: T): (r: seq<T>)
    ensures x in r <==> x !in sel
    ensures forall y :: y != x ==> (y in r <==> y in sel)
    ensures x !in sel ==> r == sel + [x]
    ensures x in sel ==> IsSubsequence(r, sel) && multiset(r) == multiset(sel)[x := 0]
    ensures NoDup(sel) ==> NoDup(r)
  {
    if x in sel then
      var r := FilterOut(sel, [x]);
      FilterOutCounts(sel, [x]);
      assert forall y :: y in r <==> y in multiset(r);
      FilterOutNoDup(sel, [x]);
      FilterOutIsSubsequence(sel, [x]);
      r
    else
      sel + [x]
  }

  /**
   * Toggling the same value twice gives back the same selection: exactly when the
   * value was absent, and up to order (the value moves to the end) when it was present.
   */
  lemma ToggledTwice<T(!new)>(sel: seq<T>, x: T)
    requires NoDup(sel)
    ensures multiset(Toggled(Toggled(sel, x), x)) == multiset(sel)
    ensures x !in sel ==> Toggled(Toggled(sel, x), x) == sel
  {
    if x in sel {
      var once := FilterOut(sel, [x]);
      NoDupMultiplicity(sel);
      FilterOutCounts(sel, [x]);
      assert x !in multiset(once);
      assert Toggled(once, x) == once + [x];
      assert multiset(sel)[x] == 1;
      forall y ensures multiset(once + [x])[y] == multiset(sel)[y] {
      }
      assert multiset(once + [x]) == multiset(sel);
    } else {
      FilterOutKeepsAll(sel, [x]);
      assert FilterOut(sel + [x], [x]) == sel by {
        FilterOutAppend(sel, [x], [x]);
      }
    }
  }

  lemma {:induction false} FilterOutAppend<T>(a: seq<T>, b: seq<T>, xs: seq<T>)
    ensures FilterOut(a + b, xs) == FilterOut(a, xs) + FilterOut(b, xs)
  {
    if a == [] {
      assert a + b == b;
    } else {
      var ab := a + b;
      assert ab[0] == a[0] && ab[1..] == a[1..] + b;
      FilterOutAppend(a[1..], b, xs);
      var head := if a[0] in xs then [] else [a[0]];
      assert FilterOut(ab, xs) == head + FilterOut(a[1..] + b, xs);
      assert FilterOut(a, xs) == head + FilterOut(a[1..], xs);
    }
  }

  /** Entries that are all in `xs` are all dropped. */
  lemma {:induction false} FilterOutDropsAll<T>(s: seq<T>, xs: seq<T>)
    requires forall i :: 0 <= i < |s| ==> s[i] in xs
    ensures FilterOut(s, xs) == []
  {
    if s != [] {
      FilterOutDropsAll(s[1..], xs);
    }
  }

  /** Filtering a duplicate-free list by its own first `j` entries leaves the rest. */
  lemma FilterOutOwnPrefix<T>(s: seq<T>, j: nat)
    requires NoDup(s) && j <= |s|
    ensures FilterOut(s, s[..j]) == s[j..]
  {
    var a, b := s[..j], s[j..];
    assert s == a + b;
    FilterOutAppend(a, b, a);
    FilterOutDropsAll(a, a);
    assert forall i :: 0 <= i < |b| ==> b[i] !in a;
    FilterOutKeepsAll(b, a);
  }
}
