/**
 * The court component of the database-backed variant. Its handlers first await one
 * remote write per player and then replace the courts state; only that local
 * replacement is modelled. Players are `{id, name}` records, and removal filters a
 * court's players by value (`!playersToRemove.includes(p)`), not by position.
 */
module CourtManager {
  import opened Seqs
  import opened Marks
  import opened Courts
  import opened Players

  /**
   * Local state after `removePlayersFromCourt(courtId, count)`: the players chosen by
   * `Released` (the marked ones for count 2, `players.slice(0, count)` otherwise) are
   * filtered out of every court with that id, whose marks are cleared.
   */
  function RemovePlayersFromCourt(courts: seq<Court<Player>>, courtId: int, count: nat): (r: seq<Court<Player>>)
    requires FindCourt(courts, courtId) >= 0
    ensures |r| == |courts|
    ensures forall k :: 0 <= k < |courts| && courts[k].id != courtId ==> r[k] == courts[k]
    ensures forall k :: 0 <= k < |courts| && courts[k].id == courtId ==>
      && r[k].id == courtId && r[k].checked == map[]
      && r[k].players == FilterOut(courts[k].players, Released(courts[FindCourt(courts, courtId)], count))
  {
    var removed := Released(courts[FindCourt(courts, courtId)], count);
    seq(|courts|, k requires 0 <= k < |courts| =>
      if courts[k].id == courtId
      then courts[k].(players := FilterOut(courts[k].players, removed), checked := map[])
      else courts[k])
  }

  /**
   * On the court, the players left are exactly the former ones that were not released,
   * each as often as before, in their former order.
   */
  lemma RemovalKeepsOthersInOrder(courts: seq<Court<Player>>, courtId: int, count: nat)
    requires FindCourt(courts, courtId) >= 0
    ensures var k := FindCourt(courts, courtId);
      var after := RemovePlayersFromCourt(courts, courtId, count)[k].players;
      && IsSubsequence(after, courts[k].players)
      && (forall p :: multiset(after)[p] == if p in Released(courts[k], count) then 0 else multiset(courts[k].players)[p])
      && forall p :: p in after <==> p in courts[k].players && p !in Released(courts[k], count)
  {
    var k := FindCourt(courts, courtId);
    var removed := Released(courts[k], count);
    FilterOutIsSubsequence(courts[k].players, removed);
    FilterOutMembers(courts[k].players, removed);
    FilterOutCounts(courts[k].players, removed);
    assert forall p :: p in courts[k].players ==> p in multiset(courts[k].players);
  }

  lemma {:induction false} PlayersAtMembers<P>(players: seq<P>, indices: seq<nat>, x: P)
    requires forall k :: 0 <= k < |indices| ==> indices[k] < |players|
    ensures x in PlayersAt(players, indices) <==> exists k :: 0 <= k < |indices| && players[indices[k]] == x
  {
    var r := PlayersAt(players, indices);
    if x in r {
      var k :| 0 <= k < |r| && r[k] == x;
      assert players[indices[k]] == x;
    }
  }

  /** With distinct occupants, the occupant at `i` is among the marked ones exactly when `i` is marked. */
  lemma MarkedOccupant<P>(players: seq<P>, m: Checks, i: nat)
    requires NoDup(players) && i < |players|
    ensures players[i] in PlayersAt(players, CheckedIndices(m, |players|)) <==> IsChecked(m, i)
  {
    var indices := CheckedIndices(m, |players|);
    PlayersAtMembers(players, indices, players[i]);
    if players[i] in PlayersAt(players, indices) {
      var k :| 0 <= k < |indices| && players[indices[k]] == players[i];
      assert indices[k] in indices;
      assert indices[k] == i;
    }
    if IsChecked(m, i) {
      assert i in indices;
      var k :| 0 <= k < |indices| && indices[k] == i;
      assert players[indices[k]] == players[i];
    }
  }

  lemma {:induction false} FilterMarkedFrom<P>(players: seq<P>, m: Checks, from: nat)
    requires NoDup(players) && from <= |players|
    ensures FilterOut(players[from..], PlayersAt(players, CheckedIndices(m, |players|)))
         == KeepUnmarkedFrom(players, m, from)
    decreases |players| - from
  {
    var marked := PlayersAt(players, CheckedIndices(m, |players|));
    if from < |players| {
      FilterMarkedFrom(players, m, from + 1);
      MarkedOccupant(players, m, from);
      var tail := players[from..];
      assert tail[0] == players[from] && tail[1..] == players[from + 1..];
      assert FilterOut(tail, marked)
          == (if players[from] in marked then [] else [players[from]]) + FilterOut(players[from + 1..], marked);
    } else {
      assert players[from..] == [];
    }
  }

  /**
   * With distinct occupants, removal by value agrees with removal by position: the
   * court keeps exactly `Remaining(court, count)`, in order, for "Remove 2" and for
   * "Remove All" alike.
   */
  lemma ByValueRemovalKeepsRemaining(courts: seq<Court<Player>>, courtId: int, count: nat)
    requires FindCourt(courts, courtId) >= 0
    requires NoDup(courts[FindCourt(courts, courtId)].players)
    ensures var k := FindCourt(courts, courtId);
      RemovePlayersFromCourt(courts, courtId, count)[k].players == Remaining(courts[k], count)
  {
    var k := FindCourt(courts, courtId);
    var c := courts[k];
    if count == 2 {
      FilterMarkedFrom(c.players, c.checked, 0);
      assert c.players[0..] == c.players;
    } else {
      FilterOutOwnPrefix(c.players, Min(count, |c.players|));
    }
  }

  /**
   * "Remove 2 Players" on a court of distinct occupants with exactly two marks takes
   * off exactly the two marked players; the others stay, in order, and no mark is left.
   */
  lemma RemoveTwoTakesMarkedPair(courts: seq<Court<Player>>, courtId: int)
    requires FindCourt(courts, courtId) >= 0
    requires var c := courts[FindCourt(courts, courtId)];
      NoDup(c.players) && MarksInRange(c) && RemoveTwoEnabled(c)
    ensures var k := FindCourt(courts, courtId);
      var after := RemovePlayersFromCourt(courts, courtId, 2)[k];
      && |after.players| == |courts[k].players| - 2
      && multiset(after.players) + multiset(MarkedPlayers(courts[k])) == multiset(courts[k].players)
      && CheckedCount(after.checked) == 0
  {
    var k := FindCourt(courts, courtId);
    var c := courts[k];
    ByValueRemovalKeepsRemaining(courts, courtId, 2);
    RemoveTwoReleasesMarked(c);
    ReleaseSplitsCourt(c, 2);
    assert Checked(map[]) == {};
  }

  /** "Remove All Players" (count 4) empties a court of at most four players. */
  lemma RemoveAllEmptiesCourt(courts: seq<Court<Player>>, courtId: int)
    requires FindCourt(courts, courtId) >= 0
    requires |courts[FindCourt(courts, courtId)].players| <= Capacity
    ensures RemovePlayersFromCourt(courts, courtId, 4)[FindCourt(courts, courtId)].players == []
  {
    var c := courts[FindCourt(courts, courtId)];
    assert Released(c, 4) == c.players;
    FilterOutDropsAll(c.players, c.players);
  }

  /** The "Add Players from Queue" button passes `[]`: pressing it changes nothing. */
  lemma AddButtonChangesNothing(courts: seq<Court<Player>>, courtId: int)
    ensures AppendPlayers(courts, courtId, []) == courts
  {
    var r := AppendPlayers(courts, courtId, []);
    forall k | 0 <= k < |courts| ensures r[k] == courts[k] {
      if courts[k].id == courtId {
        assert r[k].players == r[k].players[..|courts[k].players|];
      }
    }
  }

  /** The shuttlecock increment button is enabled only for 2 or 4 players. */
  predicate EquipmentEnabled(c: Court<Player>) {
    |c.players| == 2 || |c.players| == 4
  }

  /** On a court of at most four players: enabled exactly for a non-empty even count. */
  lemma EquipmentRule(c: Court<Player>)
    requires |c.players| <= Capacity
    ensures EquipmentEnabled(c) <==> |c.players| > 0 && |c.players| % 2 == 0
  {
  }
}
