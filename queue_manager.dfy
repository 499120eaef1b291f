/**
 * The queue component of the database-backed variant. After awaiting the remote
 * insert or delete it replaces the local queue and selection; only that local
 * replacement is modelled. Entries are `{id, name}` records; this variant appends
 * without sorting.
 */
module QueueManager {
  import opened Seqs
  import opened Players

  /**
   * `addPlayerToQueue`: a name that fails the check leaves the queue alone (the
   * toast is not modelled); otherwise exactly one entry `{id: newId, name}` is
   * appended, with the name as typed, and the earlier entries are untouched.
   * `newId` is the id the remote insert returned.
   */
  function AddPlayerToQueue(queue: seq<Player>, name: string, newId: string): (r: seq<Player>)
    ensures !ValidName(name) ==> r == queue
    ensures ValidName(name) ==>
      |r| == |queue| + 1 && r[..|queue|] == queue && r[|queue|] == Player(newId, name)
  {
    if ValidName(name) then queue + [Player(newId, name)] else queue
  }

  /** `s.filter(player => player.id !== id)`. */
  function WithoutId(s: seq<Player>, id: string): (r: seq<Player>)
    ensures forall p :: multiset(r)[p] == if p.id == id then 0 else multiset(s)[p]
    ensures forall p :: p in r <==> p in s && p.id != id
    ensures IsSubsequence(r, s)
  {
    if s == [] then []
    else
      var rest := WithoutId(s[1..], id);
      assert s == [s[0]] + s[1..];
      if s[0].id == id then
        assert rest == [] || rest[0] != s[0] by {
          if rest != [] {
            assert rest[0] in rest;
          }
        }
        rest
      else
        assert ([s[0]] + rest)[1..] == rest;
        [s[0]] + rest
  }

  /**
   * `removePlayerFromQueue(player)`: every queue entry and every selected entry with
   * the player's id goes, every other entry stays, as often as it was there and in
   * its order, and a selection drawn from the queue stays drawn from the queue.
   */
  function RemovePlayerFromQueue(queue: seq<Player>, selected: seq<Player>, player: Player): (r: (seq<Player>, seq<Player>))
    ensures forall p :: multiset(r.0)[p] == if p.id == player.id then 0 else multiset(queue)[p]
    ensures forall p :: multiset(r.1)[p] == if p.id == player.id then 0 else multiset(selected)[p]
    ensures forall p :: p in r.0 <==> p in queue && p.id != player.id
    ensures forall p :: p in r.1 <==> p in selected && p.id != player.id
    ensures IsSubsequence(r.0, queue) && IsSubsequence(r.1, selected)
    ensures (forall p :: p in selected ==> p in queue) ==> forall p :: p in r.1 ==> p in r.0
  {
    (WithoutId(queue, player.id), WithoutId(selected, player.id))
  }

  /**
   * `handlePlayerSelection(player)` is `Seqs.Toggled(selected, player)`; the queue is
   * not an argument, so it never changes. Toggling an entry of the queue keeps the
   * selection a duplicate-free part of the queue.
   */
  lemma SelectionStaysInQueue(queue: seq<Player>, selected: seq<Player>, player: Player)
    requires player in queue
    requires NoDup(selected) && forall p :: p in selected ==> p in queue
    ensures NoDup(Toggled(selected, player))
    ensures forall p :: p in Toggled(selected, player) ==> p in queue
  {
  }
}
