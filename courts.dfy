/**
 * A court: its id, its occupants in order of arrival, and the per-position release
 * marks. The transforms here are the ones both the local-state page and the
 * database-backed court component apply to the list of courts.
 */
module Courts {
  import opened Seqs
  import opened Marks

  /** Occupancy of a court: `4 - players.length` slots are free. */
  const Capacity: nat := 4

  datatype Court<P> = Court(id: int, players: seq<P>, checked: Checks)

  /** Every mark sits on an occupied position. */
  predicate MarksInRange<P>(c: Court<P>) {
    Within(c.checked, |c.players|)
  }

  /** `courts.find(c => c.id === courtId)` as a position, or -1 when there is none. */
  function FindCourt<P>(courts: seq<Court<P>>, id: int): (k: int)
    ensures -1 <= k < |courts|
    ensures k >= 0 ==> courts[k].id == id && forall j :: 0 <= j < k ==> courts[j].id != id
    ensures k < 0 ==> forall j :: 0 <= j < |courts| ==> courts[j].id != id
  {
    if courts == [] then -1
    else if courts[0].id == id then 0
    else
      var k := FindCourt(courts[1..], id);
      if k < 0 then -1 else k + 1
  }

  /**
   * `handleCheckboxChange(courtId, index)`: on every court with that id the mark at
   * `index` flips and every other mark stays; every other court is left alone.
   */
  function ToggleMark<P>(courts: seq<Court<P>>, id: int, index: nat): (r: seq<Court<P>>)
    ensures |r| == |courts|
    ensures forall k :: 0 <= k < |courts| && courts[k].id != id ==> r[k] == courts[k]
    ensures forall k :: 0 <= k < |courts| && courts[k].id == id ==>
      && r[k].id == id && r[k].players == courts[k].players
      && IsChecked(r[k].checked, index) == !IsChecked(courts[k].checked, index)
      && forall j :: j != index ==> IsChecked(r[k].checked, j) == IsChecked(courts[k].checked, j)
  {
    seq(|courts|, k requires 0 <= k < |courts| =>
      if courts[k].id == id then courts[k].(checked := Toggle(courts[k].checked, index)) else courts[k])
  }

  /** Toggling the same checkbox twice restores every court's set of marked positions. */
  lemma ToggleMarkTwice<P>(courts: seq<Court<P>>, id: int, index: nat)
    ensures var r := ToggleMark(ToggleMark(courts, id, index), id, index);
      |r| == |courts|
      && forall k :: 0 <= k < |courts| ==>
           r[k].id == courts[k].id && r[k].players == courts[k].players
           && Checked(r[k].checked) == Checked(courts[k].checked)
  {
    var r := ToggleMark(ToggleMark(courts, id, index), id, index);
    forall k | 0 <= k < |courts| ensures Checked(r[k].checked) == Checked(courts[k].checked) {
      if courts[k].id == id {
        ToggleTwice(courts[k].checked, index);
      }
    }
  }

  /**
   * `{ ...c, players: [...c.players, ...playersToAdd] }` on every court with that id:
   * the new players are appended in order, marks and other courts are untouched.
   */
  function AppendPlayers<P>(courts: seq<Court<P>>, id: int, toAdd: seq<P>): (r: seq<Court<P>>)
    ensures |r| == |courts|
    ensures forall k :: 0 <= k < |courts| && courts[k].id != id ==> r[k] == courts[k]
    ensures forall k :: 0 <= k < |courts| && courts[k].id == id ==>
      && r[k].id == id && r[k].checked == courts[k].checked
      && |r[k].players| == |courts[k].players| + |toAdd|
      && r[k].players[..|courts[k].players|] == courts[k].players
      && r[k].players[|courts[k].players|..] == toAdd
  {
    seq(|courts|, k requires 0 <= k < |courts| =>
      if courts[k].id == id then courts[k].(players := courts[k].players + toAdd) else courts[k])
  }

  /** "Remove 2 Players" is enabled only when exactly two marks are set. */
  predicate RemoveTwoEnabled<P>(c: Court<P>) {
    CheckedCount(c.checked) == 2
  }

  /** `indices.map(index => players[index])`. */
  function PlayersAt<P>(players: seq<P>, indices: seq<nat>): (r: seq<P>)
    requires forall k :: 0 <= k < |indices| ==> indices[k] < |players|
    ensures |r| == |indices|
    ensures forall k :: 0 <= k < |r| ==> r[k] == players[indices[k]]
  {
    if indices == [] then []
    else [players[indices[0]]] + PlayersAt(players, indices[1..])
  }

  /** The occupants at the marked positions, in ascending position order. */
  function MarkedPlayers<P>(c: Court<P>): seq<P> {
    PlayersAt(c.players, CheckedIndices(c.checked, |c.players|))
  }

  /**
   * `players.filter((_, index) => !checkedIndices.includes(index))` from position
   * `from` on; a position is in the index list exactly when it is checked.
   */
  function KeepUnmarkedFrom<P>(players: seq<P>, m: Checks, from: nat): seq<P>
    requires from <= |players|
    decreases |players| - from
  {
    if from == |players| then []
    else (if IsChecked(m, from) then [] else [players[from]]) + KeepUnmarkedFrom(players, m, from + 1)
  }

  function UnmarkedPlayers<P>(c: Court<P>): seq<P> {
    KeepUnmarkedFrom(c.players, c.checked, 0)
  }

  function Min(a: nat, b: nat): nat {
    if a <= b then a else b
  }

  /**
   * The players a release takes off the court: for count 2 those at the marked
   * positions, otherwise `players.slice(0, count)`.
   */
  function Released<P>(c: Court<P>, count: nat): seq<P> {
    if count == 2 then MarkedPlayers(c) else c.players[..Min(count, |c.players|)]
  }

  /**
   * The players a release leaves on the court (positional variant): for count 2 the
   * unmarked positions, otherwise `players.slice(count)`.
   */
  function Remaining<P>(c: Court<P>, count: nat): seq<P> {
    if count == 2 then UnmarkedPlayers(c) else c.players[Min(count, |c.players|)..]
  }

  /** The players at the checked positions from `from` on, in ascending position order. */
  function KeepMarkedFrom<P>(players: seq<P>, m: Checks, from: nat): seq<P>
    requires from <= |players|
    decreases |players| - from
  {
    if from == |players| then []
    else (if IsChecked(m, from) then [players[from]] else []) + KeepMarkedFrom(players, m, from + 1)
  }

  /** Reading the players at the ascending checked indices walks the positions in order. */
  lemma {:induction false} PlayersAtChecked<P>(players: seq<P>, m: Checks, from: nat)
    requires from <= |players|
    ensures PlayersAt(players, CheckedFrom(m, from, |players|)) == KeepMarkedFrom(players, m, from)
    decreases |players| - from
  {
    var n := |players|;
    if from < n {
      PlayersAtChecked(players, m, from + 1);
      var idx := CheckedFrom(m, from + 1, n);
      if IsChecked(m, from) {
        assert CheckedFrom(m, from, n) == [from] + idx;
        assert ([from] + idx)[1..] == idx;
      } else {
        assert CheckedFrom(m, from, n) == idx;
      }
    }
  }

  /** A suffix is its first entry followed by the next suffix. */
  lemma SliceCons<P>(s: seq<P>, i: nat)
    requires i < |s|
    ensures multiset(s[i..]) == multiset{s[i]} + multiset(s[i + 1..])
  {
    assert s[i..] == [s[i]] + s[i + 1..];
  }

  lemma {:induction false} SplitFrom<P>(players: seq<P>, m: Checks, from: nat)
    requires from <= |players|
    ensures multiset(KeepMarkedFrom(players, m, from)) + multiset(KeepUnmarkedFrom(players, m, from))
         == multiset(players[from..])
    decreases |players| - from
  {
    if from < |players| {
      SplitFrom(players, m, from + 1);
      SliceCons(players, from);
      var one := multiset{players[from]};
      var marked, kept := multiset(KeepMarkedFrom(players, m, from + 1)), multiset(KeepUnmarkedFrom(players, m, from + 1));
      if IsChecked(m, from) {
        assert multiset(KeepMarkedFrom(players, m, from)) == one + marked;
        assert multiset(KeepUnmarkedFrom(players, m, from)) == kept;
      } else {
        assert multiset(KeepMarkedFrom(players, m, from)) == marked;
        assert multiset(KeepUnmarkedFrom(players, m, from)) == one + kept;
      }
    }
  }

  lemma {:induction false} KeepUnmarkedOrder<P>(players: seq<P>, m: Checks, from: nat)
    requires from <= |players|
    ensures IsSubsequence(KeepUnmarkedFrom(players, m, from), players[from..])
    decreases |players| - from
  {
    if from < |players| {
      KeepUnmarkedOrder(players, m, from + 1);
      var keep := KeepUnmarkedFrom(players, m, from + 1);
      var tail := players[from..];
      assert tail[0] == players[from] && tail[1..] == players[from + 1..];
      if IsChecked(m, from) {
        assert KeepUnmarkedFrom(players, m, from) == keep;
      } else {
        assert KeepUnmarkedFrom(players, m, from) == [players[from]] + keep;
        assert ([players[from]] + keep)[1..] == keep;
      }
    }
  }

  /**
   * A release splits the court: what is released and what remains together are
   * exactly the former occupants, and the remaining ones keep their order.
   */
  lemma ReleaseSplitsCourt<P>(c: Court<P>, count: nat)
    ensures multiset(Released(c, count)) + multiset(Remaining(c, count)) == multiset(c.players)
    ensures IsSubsequence(Remaining(c, count), c.players)
  {
    if count == 2 {
      PlayersAtChecked(c.players, c.checked, 0);
      SplitFrom(c.players, c.checked, 0);
      KeepUnmarkedOrder(c.players, c.checked, 0);
      assert c.players[0..] == c.players;
    } else {
      var k := Min(count, |c.players|);
      assert c.players == c.players[..k] + c.players[k..];
      SuffixIsSubsequence(c.players, k);
    }
  }

  /**
   * With exactly two marks, all on occupied positions, "Remove 2" releases exactly
   * the two marked players, lower position first, and leaves the others.
   */
  lemma RemoveTwoReleasesMarked<P>(c: Court<P>)
    requires MarksInRange(c) && RemoveTwoEnabled(c)
    ensures var idx := CheckedIndices(c.checked, |c.players|);
      && |idx| == 2 && idx[0] < idx[1] < |c.players|
      && IsChecked(c.checked, idx[0]) && IsChecked(c.checked, idx[1])
      && Released(c, 2) == [c.players[idx[0]], c.players[idx[1]]]
      && |Remaining(c, 2)| == |c.players| - 2
  {
    var idx := CheckedIndices(c.checked, |c.players|);
    CheckedIndicesCount(c.checked, |c.players|);
    assert idx[0] in idx && idx[1] in idx;
    ReleaseSplitsCourt(c, 2);
    assert |multiset(Released(c, 2)) + multiset(Remaining(c, 2))| == |multiset(c.players)|;
  }

  /** "Remove All Players" (count 4) empties a court holding at most four players. */
  lemma RemoveAllReleasesEveryone<P>(c: Court<P>)
    requires |c.players| <= Capacity
    ensures Released(c, 4) == c.players && Remaining(c, 4) == []
  {
  }

  /** Everyone on some court, with multiplicity. */
  function Occupants<P>(courts: seq<Court<P>>): multiset<P> {
    if courts == [] then multiset{} else multiset(courts[0].players) + Occupants(courts[1..])
  }

  /** Replacing one court swaps its occupants for the new court's and leaves the rest. */
  lemma {:induction false} OccupantsUpdate<P>(courts: seq<Court<P>>, k: nat, c: Court<P>)
    requires k < |courts|
    ensures Occupants(courts[k := c]) + multiset(courts[k].players) == Occupants(courts) + multiset(c.players)
  {
    if k > 0 {
      OccupantsUpdate(courts[1..], k - 1, c);
      var updated := courts[k := c];
      assert updated[1..] == courts[1..][k - 1 := c];
      assert updated[0] == courts[0];
      assert Occupants(updated) == multiset(courts[0].players) + Occupants(updated[1..]);
      assert courts[1..][k - 1] == courts[k];
      assert Occupants(courts) == multiset(courts[0].players) + Occupants(courts[1..]);
      var m0, mk := multiset(courts[0].players), multiset(courts[k].players);
      assert m0 + Occupants(updated[1..]) + mk == m0 + (Occupants(updated[1..]) + mk);
      assert m0 + Occupants(courts[1..]) + multiset(c.players) == m0 + (Occupants(courts[1..]) + multiset(c.players));
    } else {
      assert courts[k := c][1..] == courts[1..];
    }
  }
}
