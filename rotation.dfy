/**
 * The local-state page: two courts, a wait queue of names, games played and
 * timestamps per name, and the players picked by hand from the queue. The name is
 * the player's identity; nothing stops two players from sharing a name.
 *
 * Every handler is one atomic transition. The page's `setState` calls are
 * asynchronous, so the page's sort reads the maps as they were before the handler;
 * here the sort reads the updated maps (see README).
 */
module Rotation {
  import opened Seqs
  import opened Marks
  import opened Fairness
  import opened Courts
  import opened Players

  type Name = string

  /**
   * The games played after a release: the released entries are counted one by one,
   * front to back, each adding one to its name's count (a missing count reads as 0).
   */
  function Bumped(stats: map<Name, nat>, released: seq<Name>): map<Name, nat>
    decreases |released|
  {
    if released == [] then stats
    else Bumped(stats[released[0] := Games(stats, released[0]) + 1], released[1..])
  }

  /** A name released `n` times gains `n` games; the names with a count are the old ones and the released ones. */
  lemma {:induction false} BumpedCounts(stats: map<Name, nat>, released: seq<Name>)
    ensures forall p :: Games(Bumped(stats, released), p) == Games(stats, p) + multiset(released)[p]
    ensures forall p :: p in Bumped(stats, released) <==> p in stats || p in released
    decreases |released|
  {
    if released != [] {
      var x := released[0];
      BumpedCounts(stats[x := Games(stats, x) + 1], released[1..]);
      assert released == [x] + released[1..];
    }
  }

  /** The timestamps after a release: every released name is stamped `now`, front to back. */
  function Stamped(stamps: map<Name, int>, released: seq<Name>, now: int): map<Name, int>
    decreases |released|
  {
    if released == [] then stamps else Stamped(stamps[released[0] := now], released[1..], now)
  }

  /** Every released name carries `now`; every other name keeps its timestamp or its lack of one. */
  lemma {:induction false} StampedValues(stamps: map<Name, int>, released: seq<Name>, now: int)
    ensures forall p :: p in released ==> p in Stamped(stamps, released, now) && Stamped(stamps, released, now)[p] == now
    ensures forall p :: p !in released ==>
      (p in Stamped(stamps, released, now) <==> p in stamps)
      && (p in stamps ==> Stamped(stamps, released, now)[p] == stamps[p])
    decreases |released|
  {
    if released != [] {
      StampedValues(stamps[released[0] := now], released[1..], now);
      assert forall p :: p in released <==> p == released[0] || p in released[1..];
    }
  }

  /** The release loop over the games played, proved against `Bumped`. */
  method BumpAll(stats: map<Name, nat>, released: seq<Name>) returns (r: map<Name, nat>)
    ensures r == Bumped(stats, released)
  {
    r := stats;
    var i := 0;
    while i < |released|
      invariant 0 <= i <= |released|
      invariant Bumped(r, released[i..]) == Bumped(stats, released)
    {
      var p := released[i];
      assert released[i..][0] == p && released[i..][1..] == released[i + 1..];
      r := r[p := Games(r, p) + 1];
      i := i + 1;
    }
  }

  /** The release loop over the timestamps, proved against `Stamped`. */
  method StampAll(stamps: map<Name, int>, released: seq<Name>, now: int) returns (r: map<Name, int>)
    ensures r == Stamped(stamps, released, now)
  {
    r := stamps;
    var i := 0;
    while i < |released|
      invariant 0 <= i <= |released|
      invariant Stamped(r, released[i..], now) == Stamped(stamps, released, now)
    {
      var p := released[i];
      assert released[i..][0] == p && released[i..][1..] == released[i + 1..];
      r := r[p := now];
      i := i + 1;
    }
  }

  /**
   * The players "Add Players from Queue" puts on a court with `free` open slots: the
   * front of the queue when nothing is selected, else the front of the selection.
   */
  function Candidates(queue: seq<Name>, selected: seq<Name>, free: nat): (r: seq<Name>)
    ensures |r| <= free
  {
    if |selected| == 0 then queue[..Min(free, |queue|)] else selected[..Min(free, |selected|)]
  }

  /**
   * The candidates are the longest front part of the selection, or of the queue when
   * nothing is selected, that fits the free slots.
   */
  lemma CandidatesTakeFront(queue: seq<Name>, selected: seq<Name>, free: nat)
    ensures var r := Candidates(queue, selected, free);
      && (selected == [] ==> |r| == Min(free, |queue|) && r == queue[..|r|])
      && (selected != [] ==> |r| == Min(free, |selected|) && r == selected[..|r|])
  {
  }

  /** Courts 1 and 2, each with at most four players and marks only on occupied positions. */
  predicate CourtsOk(courts: seq<Court<Name>>) {
    && |courts| == 2 && courts[0].id == 1 && courts[1].id == 2
    && forall k :: 0 <= k < |courts| ==> |courts[k].players| <= Capacity && MarksInRange(courts[k])
  }

  /** The queue is in fairness order and every queued name has a timestamp. */
  predicate QueueOk(queue: seq<Name>, stats: map<Name, nat>, stamps: map<Name, int>) {
    Sorted(queue, stats, stamps) && forall p :: p in queue ==> p in stamps
  }

  /** The selection names queued players, each once. */
  predicate SelectionOk(selected: seq<Name>, queue: seq<Name>) {
    NoDup(selected) && forall p :: p in selected ==> p in queue
  }

  /** The page's invariant over its five pieces of state. */
  predicate PageOk(courts: seq<Court<Name>>, queue: seq<Name>, stats: map<Name, nat>, stamps: map<Name, int>,
                   selected: seq<Name>) {
    CourtsOk(courts) && QueueOk(queue, stats, stamps) && SelectionOk(selected, queue)
  }

  /** Everyone the page knows about: the queue and the courts, with multiplicity. */
  function Population(courts: seq<Court<Name>>, queue: seq<Name>): multiset<Name> {
    multiset(queue) + Occupants(courts)
  }

  /** Nobody is counted twice. */
  ghost predicate NoneTwice(everyone: multiset<Name>) {
    forall p :: everyone[p] <= 1
  }

  /** Court `courtId` sits at position `courtId - 1`. */
  lemma CourtAt(courts: seq<Court<Name>>, courtId: int)
    requires CourtsOk(courts)
    ensures FindCourt(courts, courtId) >= 0 <==> courtId == 1 || courtId == 2
    ensures FindCourt(courts, courtId) >= 0 ==> FindCourt(courts, courtId) == courtId - 1
  {
  }

  // Adding a name to the queue

  /** A new name joins the queue: the population gains exactly that one entry. */
  lemma JoinPopulation(courts: seq<Court<Name>>, queue: seq<Name>, name: Name, stats: map<Name, nat>, stamps: map<Name, int>)
    ensures Population(courts, SortQueue(queue + [name], stats, stamps)) == Population(courts, queue) + multiset{name}
  {
    assert multiset(queue + [name]) == multiset(queue) + multiset{name};
  }

  /** A name nobody has yet joins without making anybody stand in two places. */
  lemma JoinKeepsDistinct(courts: seq<Court<Name>>, queue: seq<Name>, name: Name, stats: map<Name, nat>, stamps: map<Name, int>)
    requires NoneTwice(Population(courts, queue)) && name !in Population(courts, queue)
    ensures NoneTwice(Population(courts, SortQueue(queue + [name], stats, stamps)))
  {
    JoinPopulation(courts, queue, name, stats, stamps);
    var before := Population(courts, queue);
    forall p ensures (before + multiset{name})[p] <= 1 {
      assert (before + multiset{name})[p] == before[p] + multiset{name}[p];
    }
  }

  // Releasing players from a court

  /** A release from court `k` keeps the courts well formed. */
  lemma ReleaseStep(courts: seq<Court<Name>>, k: nat, count: nat)
    requires CourtsOk(courts) && k < |courts|
    ensures var c := courts[k];
      CourtsOk(courts[k := c.(players := Remaining(c, count), checked := map[])])
  {
    var c := courts[k];
    ReleaseSplitsCourt(c, count);
    assert |multiset(Released(c, count)) + multiset(Remaining(c, count))| == |multiset(c.players)|;
  }

  /**
   * A release moves players from a court to the queue: with the court keeping the
   * `Remaining` players and the queue gaining the `Released` ones in any order,
   * nobody appears or disappears.
   */
  lemma ReleaseConserves(courts: seq<Court<Name>>, queue: seq<Name>, k: nat, count: nat,
                         newCourt: Court<Name>, newQueue: seq<Name>)
    requires k < |courts|
    requires newCourt.players == Remaining(courts[k], count)
    requires multiset(newQueue) == multiset(queue) + multiset(Released(courts[k], count))
    ensures Population(courts[k := newCourt], newQueue) == Population(courts, queue)
  {
    var c := courts[k];
    var after := courts[k := newCourt];
    ReleaseSplitsCourt(c, count);
    OccupantsUpdate(courts, k, newCourt);
    var a, b := Occupants(after), Occupants(courts);
    var mo, mr, mc := multiset(Released(c, count)), multiset(newCourt.players), multiset(c.players);
    forall p ensures Population(after, newQueue)[p] == Population(courts, queue)[p] {
      assert (a + mc)[p] == (b + mr)[p];
      assert (mo + mr)[p] == mc[p];
    }
  }

  /**
   * "Remove Players" moves people from court `k` to the back of the queue, which is
   * then re-sorted: nobody appears or disappears.
   */
  lemma ReleasePopulation(courts: seq<Court<Name>>, queue: seq<Name>, stats: map<Name, nat>, stamps: map<Name, int>,
                          k: nat, count: nat, now: int)
    requires k < |courts|
    ensures var c := courts[k];
      var out := Released(c, count);
      Population(courts[k := c.(players := Remaining(c, count), checked := map[])],
                 SortQueue(queue + out, Bumped(stats, out), Stamped(stamps, out, now)))
        == Population(courts, queue)
  {
    var c := courts[k];
    var out := Released(c, count);
    ReleaseConserves(courts, queue, k, count, c.(players := Remaining(c, count), checked := map[]),
                     SortQueue(queue + out, Bumped(stats, out), Stamped(stamps, out, now)));
  }

  /** Re-sorting the queue with new players appended keeps the queue well formed. */
  lemma RejoinStep(queue: seq<Name>, out: seq<Name>, stats: map<Name, nat>, stamps: map<Name, int>)
    requires forall p :: p in queue ==> p in stamps
    requires forall p :: p in out ==> p in stamps
    ensures var q := SortQueue(queue + out, stats, stamps);
      QueueOk(q, stats, stamps) && forall p :: p in queue ==> p in q
  {
    var q := SortQueue(queue + out, stats, stamps);
    assert forall p :: p in q <==> p in multiset(queue + out);
  }

  /**
   * After a release the queue, re-sorted by the updated games and timestamps, and
   * the untouched selection are still well formed.
   */
  lemma ReleaseQueueStep(queue: seq<Name>, selected: seq<Name>, stats: map<Name, nat>, stamps: map<Name, int>,
                         out: seq<Name>, now: int)
    requires QueueOk(queue, stats, stamps) && SelectionOk(selected, queue)
    ensures var st, sp := Bumped(stats, out), Stamped(stamps, out, now);
      var q := SortQueue(queue + out, st, sp);
      QueueOk(q, st, sp) && SelectionOk(selected, q)
  {
    var sp := Stamped(stamps, out, now);
    StampedValues(stamps, out, now);
    assert forall p :: p in queue ==> p in sp;
    RejoinStep(queue, out, Bumped(stats, out), sp);
  }

  /** A release keeps the page well formed. */
  lemma ReleaseKeepsPageOk(courts: seq<Court<Name>>, queue: seq<Name>, stats: map<Name, nat>, stamps: map<Name, int>,
                           selected: seq<Name>, k: nat, count: nat, now: int)
    requires PageOk(courts, queue, stats, stamps, selected) && k < |courts|
    ensures var c := courts[k];
      var out := Released(c, count);
      var st, sp := Bumped(stats, out), Stamped(stamps, out, now);
      PageOk(courts[k := c.(players := Remaining(c, count), checked := map[])], SortQueue(queue + out, st, sp), st, sp, selected)
  {
    ReleaseStep(courts, k, count);
    ReleaseQueueStep(queue, selected, stats, stamps, Released(courts[k], count), now);
  }

  // Moving players from the queue to a court

  /** With distinct court ids, appending to the court with `k`'s id changes court `k` alone. */
  lemma AppendIsUpdate(courts: seq<Court<Name>>, k: nat, chosen: seq<Name>)
    requires CourtsOk(courts) && k < |courts|
    ensures AppendPlayers(courts, courts[k].id, chosen) == courts[k := courts[k].(players := courts[k].players + chosen)]
  {
    var appended := AppendPlayers(courts, courts[k].id, chosen);
    var after := courts[k := courts[k].(players := courts[k].players + chosen)];
    forall j | 0 <= j < |courts| ensures appended[j] == after[j] {
      if j == k {
        assert appended[j].players == courts[k].players + chosen;
      }
    }
  }

  /** Adding `chosen` to court `k` within its capacity keeps the courts well formed. */
  lemma AssignStep(courts: seq<Court<Name>>, k: nat, chosen: seq<Name>)
    requires CourtsOk(courts) && k < |courts|
    requires |courts[k].players| + |chosen| <= Capacity
    ensures CourtsOk(courts[k := courts[k].(players := courts[k].players + chosen)])
  {
    assert MarksInRange(courts[k].(players := courts[k].players + chosen));
  }

  /**
   * What "Add Players from Queue" takes comes from the queue, and takes nobody twice
   * when nobody is queued twice.
   */
  lemma CandidatesFromQueue(queue: seq<Name>, selected: seq<Name>, free: nat)
    requires SelectionOk(selected, queue)
    ensures var chosen := Candidates(queue, selected, free);
      && (forall p :: p in chosen ==> p in queue)
      && (NoDup(queue) ==> NoDup(chosen))
  {
    var chosen := Candidates(queue, selected, free);
    assert forall i :: 0 <= i < |chosen| ==> chosen[i] in queue by {
      if selected != [] {
        assert forall i :: 0 <= i < |chosen| ==> chosen[i] == selected[i];
      }
    }
  }

  /**
   * Taking entries out of a sorted queue keeps the rest in order, so the page's
   * re-sort returns it unchanged.
   */
  lemma TakeOutStep(queue: seq<Name>, xs: seq<Name>, stats: map<Name, nat>, stamps: map<Name, int>)
    requires QueueOk(queue, stats, stamps)
    ensures var rest := FilterOut(queue, xs);
      QueueOk(rest, stats, stamps) && SortQueue(rest, stats, stamps) == rest
  {
    var rest := FilterOut(queue, xs);
    FilterOutIsSubsequence(queue, xs);
    FilterOutMembers(queue, xs);
    SortedSubsequence(rest, queue, stats, stamps);
    SortQueueFixpoint(rest, stats, stamps);
  }

  /** Moving `chosen` from the queue to court `k` within its capacity keeps the page well formed. */
  lemma AssignKeepsPageOk(courts: seq<Court<Name>>, queue: seq<Name>, stats: map<Name, nat>, stamps: map<Name, int>,
                          selected: seq<Name>, k: nat, chosen: seq<Name>, newCourts: seq<Court<Name>>, newQueue: seq<Name>)
    requires PageOk(courts, queue, stats, stamps, selected) && k < |courts|
    requires |courts[k].players| + |chosen| <= Capacity
    requires newCourts == courts[k := courts[k].(players := courts[k].players + chosen)]
    requires newQueue == SortQueue(FilterOut(queue, chosen), stats, stamps)
    ensures PageOk(newCourts, newQueue, stats, stamps, []) && newQueue == FilterOut(queue, chosen)
  {
    AssignStep(courts, k, chosen);
    TakeOutStep(queue, chosen, stats, stamps);
  }

  /** A queue that is part of a population in which nobody appears twice holds nobody twice. */
  lemma DistinctQueue(queue: seq<Name>, everyone: multiset<Name>)
    requires multiset(queue) <= everyone
    requires NoneTwice(everyone)
    ensures NoDup(queue)
  {
    NoDupMultiplicity(queue);
  }

  /** Moving duplicate-free queued `chosen` to the end of court `k`: nobody appears or disappears. */
  lemma MoveConserves(courts: seq<Court<Name>>, queue: seq<Name>, chosen: seq<Name>, k: nat,
                      newCourt: Court<Name>, newQueue: seq<Name>)
    requires k < |courts|
    requires NoDup(queue) && NoDup(chosen) && forall p :: p in chosen ==> p in queue
    requires newCourt.players == courts[k].players + chosen
    requires newQueue == FilterOut(queue, chosen)
    ensures Population(courts[k := newCourt], newQueue) == Population(courts, queue)
  {
    var after := courts[k := newCourt];
    OccupantsUpdate(courts, k, newCourt);
    FilterOutConserves(queue, chosen);
    var a, b, x, c := Occupants(after), Occupants(courts), multiset(courts[k].players), multiset(chosen);
    var q, q' := multiset(queue), multiset(newQueue);
    assert multiset(newCourt.players) == x + c;
    assert a + x == b + (x + c);
    assert q' + c == q;
    forall p ensures (q' + a)[p] == (q + b)[p] {
      assert a[p] + x[p] == b[p] + x[p] + c[p] by {
        assert (a + x)[p] == (b + (x + c))[p];
      }
      assert q'[p] + c[p] == q[p];
    }
    assert q' + a == q + b;
  }

  /**
   * "Add Players from Queue" on court `k` moves people: when nobody is queued twice,
   * the court gains exactly the entries the queue loses, so nobody appears or
   * disappears. (With a name queued twice, the filter drops every copy of a chosen
   * name while the court gains one.)
   */
  lemma AssignConserves(courts: seq<Court<Name>>, queue: seq<Name>, selected: seq<Name>, k: nat)
    requires CourtsOk(courts) && k < |courts| && SelectionOk(selected, queue) && NoDup(queue)
    ensures var chosen := Candidates(queue, selected, Capacity - |courts[k].players|);
      Population(courts[k := courts[k].(players := courts[k].players + chosen)], FilterOut(queue, chosen))
        == Population(courts, queue)
  {
    var chosen := Candidates(queue, selected, Capacity - |courts[k].players|);
    CandidatesFromQueue(queue, selected, Capacity - |courts[k].players|);
    MoveConserves(courts, queue, chosen, k, courts[k].(players := courts[k].players + chosen), FilterOut(queue, chosen));
  }

  /**
   * Without the distinctness requirement conservation fails: on an empty court, a
   * queue of five whose last entry repeats the first sends four players to the court
   * and loses the repeated entry.
   */
  lemma AssignDropsQueuedTwin(courts: seq<Court<Name>>, queue: seq<Name>, k: nat)
    requires k < |courts| && courts[k].players == []
    requires |queue| == 5 && queue[4] == queue[0]
    ensures var chosen := Candidates(queue, [], Capacity - |courts[k].players|);
      && chosen == queue[..4]
      && FilterOut(queue, chosen) == []
      && Population(courts[k := courts[k].(players := chosen)], FilterOut(queue, chosen))
           + multiset{queue[0]} == Population(courts, queue)
  {
    var chosen := Candidates(queue, [], Capacity - |courts[k].players|);
    assert chosen == queue[..4];
    assert forall i :: 0 <= i < |queue| ==> queue[i] in chosen by {
      assert queue[4] == chosen[0];
    }
    FilterOutDropsAll(queue, chosen);
    var after := courts[k := courts[k].(players := chosen)];
    OccupantsUpdate(courts, k, courts[k].(players := chosen));
    assert Occupants(after) == Occupants(courts) + multiset(chosen);
    assert multiset(queue) == multiset(chosen) + multiset{queue[0]} by {
      assert queue == chosen + [queue[0]];
    }
    assert Population(after, []) == Occupants(courts) + multiset(chosen);
  }

  /** "Add Players from Queue" on court `k` never makes anybody stand in two places. */
  lemma AssignKeepsDistinct(courts: seq<Court<Name>>, queue: seq<Name>, selected: seq<Name>, k: nat)
    requires CourtsOk(courts) && k < |courts| && SelectionOk(selected, queue)
    requires NoneTwice(Population(courts, queue))
    ensures var chosen := Candidates(queue, selected, Capacity - |courts[k].players|);
      NoneTwice(Population(courts[k := courts[k].(players := courts[k].players + chosen)], FilterOut(queue, chosen)))
  {
    DistinctQueue(queue, Population(courts, queue));
    AssignConserves(courts, queue, selected, k);
  }


  // Removing a name from the queue

  /** The queue entries left after dropping a name keep their games and timestamps. */
  lemma DropKeepsKeys(queue: seq<Name>, stats: map<Name, nat>, stamps: map<Name, int>, player: Name)
    ensures var q := FilterOut(queue, [player]);
      forall p :: p in q ==> Games(stats, p) == Games(stats - {player}, p) && Stamp(stamps, p) == Stamp(stamps - {player}, p)
  {
    FilterOutMembers(queue, [player]);
  }

  /** Dropping a name, with its games and timestamp, leaves a well-formed queue. */
  lemma DropKeepsQueueOk(queue: seq<Name>, stats: map<Name, nat>, stamps: map<Name, int>, player: Name)
    requires QueueOk(queue, stats, stamps)
    ensures QueueOk(FilterOut(queue, [player]), stats - {player}, stamps - {player})
  {
    var q := FilterOut(queue, [player]);
    TakeOutStep(queue, [player], stats, stamps);
    DropKeepsKeys(queue, stats, stamps, player);
    FilterOutMembers(queue, [player]);
    SortedAgree(q, stats, stamps, stats - {player}, stamps - {player});
  }

  /** Dropping a name from both the queue and the selection leaves a well-formed selection. */
  lemma DropKeepsSelectionOk(queue: seq<Name>, selected: seq<Name>, player: Name)
    requires SelectionOk(selected, queue)
    ensures SelectionOk(FilterOut(selected, [player]), FilterOut(queue, [player]))
  {
    FilterOutMembers(selected, [player]);
    FilterOutNoDup(selected, [player]);
    FilterOutCounts(queue, [player]);
    assert forall p :: p in queue && p != player ==> p in multiset(FilterOut(queue, [player]));
  }

  /**
   * Dropping a name from a well-formed queue and selection, with its games and
   * timestamp, leaves them well formed, and the queue needs no re-sort.
   */
  lemma DropStep(queue: seq<Name>, selected: seq<Name>, stats: map<Name, nat>, stamps: map<Name, int>, player: Name)
    requires QueueOk(queue, stats, stamps) && SelectionOk(selected, queue)
    ensures var q := FilterOut(queue, [player]);
      && QueueOk(q, stats - {player}, stamps - {player})
      && SortQueue(q, stats - {player}, stamps - {player}) == q
      && SelectionOk(FilterOut(selected, [player]), q)
  {
    var q := FilterOut(queue, [player]);
    DropKeepsQueueOk(queue, stats, stamps, player);
    SortQueueFixpoint(q, stats - {player}, stamps - {player});
    DropKeepsSelectionOk(queue, selected, player);
  }

  /** Dropping a name removes every one of its entries and no other entry. */
  lemma DropCounts(queue: seq<Name>, player: Name)
    ensures multiset(FilterOut(queue, [player])) == multiset(queue)[player := 0]
  {
    FilterOutCounts(queue, [player]);
  }

  /**
   * Removing a name from the queue takes away its queue entries and nothing else:
   * whoever has that name on a court stays there.
   */
  lemma DropPopulation(courts: seq<Court<Name>>, queue: seq<Name>, player: Name)
    ensures forall p :: Population(courts, FilterOut(queue, [player]))[p]
                     == if p == player then Occupants(courts)[p] else Population(courts, queue)[p]
  {
    DropCounts(queue, player);
  }

  /** Removing a name from the queue never makes anybody stand in two places. */
  lemma DropKeepsDistinct(courts: seq<Court<Name>>, queue: seq<Name>, player: Name)
    requires NoneTwice(Population(courts, queue))
    ensures NoneTwice(Population(courts, FilterOut(queue, [player])))
  {
    DropPopulation(courts, queue, player);
    var before := Population(courts, queue);
    forall p ensures Population(courts, FilterOut(queue, [player]))[p] <= 1 {
      assert Occupants(courts)[p] <= before[p];
    }
  }

  /** The page's state, one field per piece of React state. */
  class Engine {
    var courts: seq<Court<Name>>
    var queue: seq<Name>
    var stats: map<Name, nat>
    var stamps: map<Name, int>
    var selected: seq<Name>

    /** The page's invariant: well-formed courts, queue and selection. */
    ghost predicate Valid()
      reads this
    {
      PageOk(courts, queue, stats, stamps, selected)
    }

    constructor ()
      ensures Valid()
      ensures courts == [Court(1, [], map[]), Court(2, [], map[])]
      ensures queue == [] && stats == map[] && stamps == map[] && selected == []
    {
      courts := [Court(1, [], map[]), Court(2, [], map[])];
      queue := [];
      stats := map[];
      stamps := map[];
      selected := [];
    }

    /**
     * A checkbox on an occupied position of a court flips that one mark; nothing
     * else on the page changes.
     */
    method HandleCheckboxChange(courtId: int, index: nat)
      requires Valid()
      requires FindCourt(courts, courtId) >= 0 ==> index < |courts[FindCourt(courts, courtId)].players|
      modifies this
      ensures Valid()
      ensures courts == ToggleMark(old(courts), courtId, index)
      ensures queue == old(queue) && stats == old(stats) && stamps == old(stamps) && selected == old(selected)
    {
      CourtAt(courts, courtId);
      courts := ToggleMark(courts, courtId, index);
    }

    /**
     * Joining the queue: a name that fails the check changes nothing; otherwise the
     * name gets 0 games and timestamp `now`, is appended, and the queue is re-sorted.
     */
    method AddPlayerToQueue(name: Name, now: int)
      requires Valid()
      modifies this
      ensures Valid()
      ensures !ValidName(name) ==> queue == old(queue) && stats == old(stats) && stamps == old(stamps)
      ensures ValidName(name) ==>
        && stats == old(stats)[name := 0] && stamps == old(stamps)[name := now]
        && queue == SortQueue(old(queue) + [name], stats, stamps)
      ensures courts == old(courts) && selected == old(selected)
    {
      if Utf16Length(Trim(name)) >= 2 {
        var newStamps := stamps[name := now];
        var newStats := stats[name := 0];
        RejoinStep(queue, [name], newStats, newStamps);
        queue, stats, stamps := SortQueue(queue + [name], newStats, newStamps), newStats, newStamps;
      }
    }

    /**
     * Releasing players from court `courtId` ("Remove 2" passes count 2, "Remove All"
     * count 4): the court keeps `Remaining` and loses its marks; the released players
     * gain a game each and timestamp `now`, and join the queue, which is re-sorted;
     * they are returned. An unknown court id changes nothing.
     */
    method RemovePlayersFromCourt(courtId: int, count: nat, now: int) returns (released: seq<Name>)
      requires Valid()
      modifies this
      ensures Valid()
      ensures FindCourt(old(courts), courtId) < 0 ==>
        && released == []
        && courts == old(courts) && queue == old(queue) && stats == old(stats) && stamps == old(stamps)
      ensures FindCourt(old(courts), courtId) >= 0 ==>
        && released == Released(old(courts)[courtId - 1], count)
        && courts == old(courts)[courtId - 1 := old(courts)[courtId - 1].(players := Remaining(old(courts)[courtId - 1], count), checked := map[])]
        && stats == Bumped(old(stats), released)
        && stamps == Stamped(old(stamps), released, now)
        && queue == SortQueue(old(queue) + released, stats, stamps)
      ensures selected == old(selected)
    {
      CourtAt(courts, courtId);
      if FindCourt(courts, courtId) < 0 {
        return [];
      }
      var k := courtId - 1;
      var c := courts[k];
      released := Released(c, count);
      var newStamps := StampAll(stamps, released, now);
      var newStats := BumpAll(stats, released);
      var newQueue := SortQueue(queue + released, newStats, newStamps);
      var newCourts := courts[k := c.(players := Remaining(c, count), checked := map[])];
      ReleaseKeepsPageOk(courts, queue, stats, stamps, selected, k, count, now);
      assert PageOk(newCourts, newQueue, newStats, newStamps, selected);
      courts, queue, stats, stamps := newCourts, newQueue, newStats, newStamps;
      assert Valid();
    }

    /**
     * "Add Players from Queue" on court `courtId`: the `Candidates` for its free slots
     * are appended to it, dropped from the queue, and the selection is cleared; with
     * no candidate nothing changes. The court never exceeds four players. The queue
     * was sorted, so the page's re-sort after the removal leaves it as filtered.
     */
    method AddPlayersToCourt(courtId: int) returns (chosen: seq<Name>)
      requires Valid()
      requires FindCourt(courts, courtId) >= 0
      modifies this
      ensures Valid()
      ensures chosen == Candidates(old(queue), old(selected), Capacity - |old(courts)[courtId - 1].players|)
      ensures |old(courts)[courtId - 1].players| + |chosen| <= Capacity
      ensures chosen == [] ==> courts == old(courts) && queue == old(queue) && selected == old(selected)
      ensures chosen != [] ==>
        && courts == old(courts)[courtId - 1 := old(courts)[courtId - 1].(players := old(courts)[courtId - 1].players + chosen)]
        && queue == FilterOut(old(queue), chosen)
        && selected == []
      ensures stats == old(stats) && stamps == old(stamps)
    {
      CourtAt(courts, courtId);
      var k := courtId - 1;
      chosen := Candidates(queue, selected, Capacity - |courts[k].players|);
      if chosen == [] {
        return;
      }
      var newCourts := courts[k := courts[k].(players := courts[k].players + chosen)];
      var newQueue := SortQueue(FilterOut(queue, chosen), stats, stamps);
      AssignKeepsPageOk(courts, queue, stats, stamps, selected, k, chosen, newCourts, newQueue);
      assert newQueue == FilterOut(queue, chosen);
      courts, queue, selected := newCourts, newQueue, [];
      assert Valid();
    }

    /**
     * Selecting a queued player by hand: an unselected one is appended to the
     * selection, a selected one is removed from it. Nothing else changes.
     */
    method HandlePlayerSelection(player: Name)
      requires Valid()
      requires player in queue
      modifies this
      ensures Valid()
      ensures selected == Toggled(old(selected), player)
      ensures courts == old(courts) && queue == old(queue) && stats == old(stats) && stamps == old(stamps)
    {
      selected := Toggled(selected, player);
    }

    /**
     * The trash button: every queue entry with that name leaves the queue (the rest
     * keep their order: re-sorting a sorted queue after a removal changes nothing),
     * the name leaves the selection, and its games and timestamp are forgotten.
     */
    method RemovePlayerFromQueue(player: Name)
      requires Valid()
      modifies this
      ensures Valid()
      ensures queue == FilterOut(old(queue), [player])
      ensures selected == FilterOut(old(selected), [player])
      ensures stats == old(stats) - {player} && stamps == old(stamps) - {player}
      ensures courts == old(courts)
    {
      DropStep(queue, selected, stats, stamps, player);
      queue, selected, stats, stamps :=
        SortQueue(FilterOut(queue, [player]), stats - {player}, stamps - {player}),
        FilterOut(selected, [player]), stats - {player}, stamps - {player};
    }
  }
}
