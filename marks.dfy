/**
 * The per-court "checkedPlayers" object: a map from an occupant position to a
 * boolean. A checkbox toggle writes the negation of the current value (a missing
 * entry reads as unchecked), so a position toggled twice keeps a `false` entry.
 */
module Marks {

  type Checks = map<nat, bool>

  /** `checkedPlayers[i]` is truthy. */
  predicate IsChecked(m: Checks, i: nat) {
    i in m && m[i]
  }

  /** `checkedPlayers[i] = !checkedPlayers[i]` on a copy of the map. */
  function Toggle(m: Checks, i: nat): (r: Checks)
    ensures IsChecked(r, i) == !IsChecked(m, i)
    ensures r.Keys == m.Keys + {i}
    ensures forall j :: j in m && j != i ==> r[j] == m[j]
  {
    m[i := !IsChecked(m, i)]
  }

  /** The positions whose value is true. */
  function Checked(m: Checks): set<nat> {
    set i | i in m && m[i]
  }

  /** `Object.values(checkedPlayers).filter(Boolean).length`. */
  function CheckedCount(m: Checks): nat {
    |Checked(m)|
  }

  /** Every key is a position below `n`. */
  predicate Within(m: Checks, n: nat) {
    forall i :: i in m ==> i < n
  }

  /** A toggle changes the count by exactly one, up or down. */
  lemma ToggleCount(m: Checks, i: nat)
    ensures CheckedCount(Toggle(m, i)) == if IsChecked(m, i) then CheckedCount(m) - 1 else CheckedCount(m) + 1
  {
    var before, after := Checked(m), Checked(Toggle(m, i));
    if IsChecked(m, i) {
      assert before == after + {i} && i !in after;
    } else {
      assert after == before + {i} && i !in before;
    }
  }

  /**
   * Two toggles of one position restore the set of checked positions (so the count);
   * the map itself comes back only when the position already had an entry, otherwise
   * a `false` entry stays behind.
   */
  lemma ToggleTwice(m: Checks, i: nat)
    ensures Checked(Toggle(Toggle(m, i), i)) == Checked(m)
    ensures CheckedCount(Toggle(Toggle(m, i), i)) == CheckedCount(m)
    ensures i in m ==> Toggle(Toggle(m, i), i) == m
    ensures i !in m ==> Toggle(Toggle(m, i), i) == m[i := false]
  {
    var r := Toggle(Toggle(m, i), i);
    assert Checked(r) == Checked(m);
  }

  /**
   * The checked positions below `n` in ascending order, starting at `from`:
   * `Object.entries(checkedPlayers).filter(([_, c]) => c).map(([i]) => parseInt(i))`
   * (integer-like keys are enumerated in ascending order).
   */
  function CheckedFrom(m: Checks, from: nat, n: nat): (r: seq<nat>)
    ensures forall a, b :: 0 <= a < b < |r| ==> r[a] < r[b]
    ensures forall i :: i in r <==> from <= i < n && IsChecked(m, i)
    ensures forall k :: 0 <= k < |r| ==> from <= r[k] < n
    decreases n - from
  {
    if from >= n then []
    else
      var rest := CheckedFrom(m, from + 1, n);
      assert forall k :: 0 <= k < |rest| ==> from < rest[k] by {
        forall k | 0 <= k < |rest| ensures from < rest[k] {
          assert rest[k] in rest;
        }
      }
      if IsChecked(m, from) then [from] + rest else rest
  }

  function CheckedIndices(m: Checks, n: nat): seq<nat> {
    CheckedFrom(m, 0, n)
  }

  function CheckedBetween(m: Checks, from: nat, n: nat): set<nat> {
    set i | i in m && m[i] && from <= i < n
  }

  lemma {:induction false} CheckedFromCount(m: Checks, from: nat, n: nat)
    ensures |CheckedFrom(m, from, n)| == |CheckedBetween(m, from, n)|
    decreases n - from
  {
    if from >= n {
      assert CheckedBetween(m, from, n) == {};
    } else {
      CheckedFromCount(m, from + 1, n);
      if IsChecked(m, from) {
        assert CheckedBetween(m, from, n) == {from} + CheckedBetween(m, from + 1, n);
      } else {
        assert CheckedBetween(m, from, n) == CheckedBetween(m, from + 1, n);
      }
    }
  }

  /** When every key is a position below `n`, the index list has one entry per check. */
  lemma CheckedIndicesCount(m: Checks, n: nat)
    requires Within(m, n)
    ensures |CheckedIndices(m, n)| == CheckedCount(m)
  {
    CheckedFromCount(m, 0, n);
    assert CheckedBetween(m, 0, n) == Checked(m);
  }
}
