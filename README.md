# Badminton court rotation, modelled in Dafny

This project models the rotation engine of a badminton session manager. The engine has:

- a wait queue of players;
- two courts of at most four players each;
- per-player counts of games played and arrival timestamps, which decide the order of the queue;
- a hand-picked selection of queued players that, when not empty, is sent to a court instead of the front of the queue.

The most complete version is the local-state page `src/pages/Index.jsx`. It is modelled as the class
`Rotation.Engine`, with one field per piece of React state and one method per handler. Each method is
proved against pure specification functions, and lemmas state what those functions keep:

- the fairness order;
- the capacity of a court;
- the link between the selection and the queue;
- the population of players.

The two database-backed components, `src/components/CourtManager.jsx` and `src/components/QueueManager.jsx`,
are modelled through the local state update each handler performs once its remote writes are done. They
are pure functions over court lists and queues of `{id, name}` records.

Modules:

- `Seqs`: the `filter(x => !xs.includes(x))` idiom, subsequences, duplicate freedom, and the selection toggle.
- `Marks`: the per-court `checkedPlayers` map, its toggle, its count and its ascending index list.
- `Fairness`: the queue order and the stable sort.
- `Players`: `{id, name}` records and the `trim().length >= 2` name check.
- `Courts`: the court record, the transforms shared by both variants, and release by position.
- `CourtManager`: the court component, including release by value.
- `QueueManager`: the queue component.
- `Rotation`: the page, the class `Engine`, and the lemmas about its state.

The model follows the code in these points:

- All players released together get one and the same timestamp, from a single `Date.now()` call. They
  are not given strictly increasing timestamps. The sort is stable, so equal keys keep the order in
  which the released players were appended (`Fairness.SortQueueStable`).
- "Add Players from Queue" does not clear a court's marks, and it does nothing with its free slots once
  the court is full, because the candidate list is then empty.
- The release handler does not check the number of marks. Only the "Remove 2 Players" button is
  disabled unless exactly two are set (`Courts.RemoveTwoReleasesMarked` states what happens when the
  button is enabled).
- The page keeps no in-progress flag and no equipment counter.

## Model

| member | source | states |
|---|---|---|
| Seqs.Toggled | src/pages/Index.jsx:144-150 | An absent value is appended at the end of the selection; a present one is removed, every copy of it, while the other entries keep their count and order; a duplicate-free selection stays duplicate-free |
| Seqs.ToggledTwice | src/components/QueueManager.jsx:43-49 | Toggling twice gives back the same selection as a multiset, and exactly the same list when the value was absent |
| Seqs.FilterOutCounts | src/pages/Index.jsx:138 | The queue filter keeps no copy of a chosen value and every copy of any other value |
| Seqs.FilterOutIsSubsequence | src/pages/Index.jsx:138 | The filtered list keeps the surviving entries in their original order |
| Seqs.FilterOutMembers | src/pages/Index.jsx:153 | Everything left after the filter was in the list and is not one of the values removed |
| Seqs.FilterOutConserves | src/pages/Index.jsx:138 | Filtering a duplicate-free list by duplicate-free entries of its own removes exactly those entries |
| Seqs.FilterOutNoDup | src/pages/Index.jsx:155 | Filtering a duplicate-free list keeps it duplicate-free |
| Seqs.FilterOutOwnPrefix | src/components/CourtManager.jsx:37-55 | On a duplicate-free list, removing by value the first j entries leaves `slice(j)` |
| Marks.Toggle | src/pages/Index.jsx:25-26 | The toggled position's mark flips (a missing entry reads as unchecked), its key is added, and every other entry keeps its value |
| Marks.ToggleCount | src/pages/Index.jsx:33-35 | A toggle changes the checked count by exactly one, down when the position was checked and up otherwise |
| Marks.ToggleTwice | src/pages/Index.jsx:22-31 | Two toggles restore the checked set and its count; the map itself comes back only when the key was present, else a `false` entry stays |
| Marks.CheckedFrom | src/pages/Index.jsx:82-84 | The index list is strictly ascending and holds exactly the checked positions in range |
| Marks.CheckedIndicesCount | src/components/CourtManager.jsx:25-27 | With every key below the player count, the index list has one entry per true mark; false entries are not counted |
| Fairness.Insert | src/pages/Index.jsx:37-46 | One insertion step of the stable sort adds exactly the inserted entry |
| Fairness.InsertSorted | src/pages/Index.jsx:37-46 | Inserting into a sorted queue keeps it sorted |
| Fairness.SortQueue | src/pages/Index.jsx:37-46 | The sorted queue is a permutation of its input, in ascending games order (a missing count is 0) with ties broken by ascending timestamp |
| Fairness.SortQueueFixpoint | src/pages/Index.jsx:37-46 | Sorting a queue that is already in order leaves it unchanged |
| Fairness.SortQueueStable | src/pages/Index.jsx:37-46 | Among entries with the same games and timestamp, the sorted queue keeps their earlier order |
| Fairness.NeverPlayedFirst | src/pages/Index.jsx:39-44 | In a sorted queue, every player with no games stands before every player with games |
| Fairness.SortedSubsequence | src/pages/Index.jsx:138-139 | Deleting entries from a sorted queue leaves it sorted |
| Fairness.SortedAgree | src/pages/Index.jsx:156-165 | Only the games and timestamps of queued players matter to the order |
| Players.TrimStart | src/pages/Index.jsx:54 | Leading trim drops only white space, leaves no leading white space and keeps every other character |
| Players.TrimEnd | src/pages/Index.jsx:54 | Trailing trim drops only white space, leaves no trailing white space and keeps every other character |
| Players.Utf16Length | src/pages/Index.jsx:54 | `length` counts UTF-16 code units: at least one and at most two per character |
| Players.TrimShape | src/pages/Index.jsx:54 | The trimmed name keeps every non-blank code unit and starts and ends with a character that is not white space |
| Players.ValidNameIffTwoNonBlank | src/pages/Index.jsx:54 | A name passes `trim().length >= 2` exactly when its characters that are not white space take at least two UTF-16 code units: two of them, or one outside the Basic Multilingual Plane |
| Players.SingleCharacterName | src/pages/Index.jsx:54 | A one-character name passes exactly when the character is not white space and lies above U+FFFF |
| Players.AstralNameAccepted | src/components/QueueManager.jsx:20 | A single emoji passes the name check, as its two code units count; a single letter does not |
| Courts.FindCourt | src/pages/Index.jsx:118 | The position found holds the first court with that id, and -1 means no court has it |
| Courts.ToggleMark | src/pages/Index.jsx:22-31 | On the court with that id only the mark at the index flips; its players, its other marks and the other courts are unchanged |
| Courts.ToggleMarkTwice | src/components/CourtManager.jsx:14-23 | Toggling the same checkbox twice restores every court's players and checked positions |
| Courts.AppendPlayers | src/components/CourtManager.jsx:71-76 | The court with that id gains the given players at its end, in order; its marks and the other courts are unchanged |
| Courts.PlayersAt | src/pages/Index.jsx:85 | The result has one entry per index: the player at that index |
| Courts.PlayersAtChecked | src/pages/Index.jsx:82-85 | Reading the players at the ascending checked indices gives the players at the checked positions, in position order |
| Courts.ReleaseSplitsCourt | src/pages/Index.jsx:81-90 | The released and remaining players together are exactly the former occupants, and the remaining ones keep their order |
| Courts.KeepUnmarkedOrder | src/pages/Index.jsx:86 | The unmarked players keep their relative order |
| Courts.RemoveTwoReleasesMarked | src/pages/Index.jsx:81-86 | With exactly two marks, all in range, "Remove 2" releases the two marked players, lower position first, and leaves the other players |
| Courts.RemoveAllReleasesEveryone | src/pages/Index.jsx:88-89 | On a court of at most four, count 4 releases everyone and leaves nobody |
| Courts.OccupantsUpdate | src/pages/Index.jsx:131-136 | Replacing one court swaps its occupants for the new court's and leaves the others |
| CourtManager.RemovePlayersFromCourt | src/components/CourtManager.jsx:29-61 | Every court with that id loses the released players by value and all its marks; the other courts are unchanged |
| CourtManager.RemovalKeepsOthersInOrder | src/components/CourtManager.jsx:50-61 | The players left on the court are exactly the former ones that were not released, each as often as before, in their former order |
| CourtManager.MarkedOccupant | src/components/CourtManager.jsx:33-36 | With distinct occupants, a player is among the marked ones exactly when its position is marked |
| CourtManager.FilterMarkedFrom | src/components/CourtManager.jsx:55 | With distinct occupants, removing the marked players by value equals keeping the unmarked positions |
| CourtManager.ByValueRemovalKeepsRemaining | src/components/CourtManager.jsx:32-39 | With distinct occupants, removal by value leaves exactly what removal by position leaves, for both buttons |
| CourtManager.RemoveTwoTakesMarkedPair | src/components/CourtManager.jsx:130-133 | When "Remove 2 Players" is enabled, the court loses exactly its two marked players, keeps the others and has no mark left |
| CourtManager.RemoveAllEmptiesCourt | src/components/CourtManager.jsx:137 | "Remove All Players" empties a court of at most four |
| CourtManager.AddButtonChangesNothing | src/components/CourtManager.jsx:140 | The "Add Players from Queue" button passes no players, so pressing it leaves the courts unchanged |
| CourtManager.EquipmentRule | src/components/CourtManager.jsx:92 | The equipment increment is enabled on a court of at most four exactly when its player count is even and non-zero |
| QueueManager.AddPlayerToQueue | src/components/QueueManager.jsx:19-35 | A name whose trim is shorter than two UTF-16 code units leaves the queue unchanged; a valid one appends exactly one `{id, name}` entry at the end, with earlier entries unchanged and no sort |
| QueueManager.WithoutId | src/components/QueueManager.jsx:59 | Every entry whose id differs survives, as often as it occurred, in its original order, and no entry with the id survives |
| QueueManager.RemovePlayerFromQueue | src/components/QueueManager.jsx:51-61 | The queue and the selection lose every entry with that id and keep every other entry, with its count, in order; a selection drawn from the queue stays drawn from it |
| QueueManager.SelectionStaysInQueue | src/components/QueueManager.jsx:43-49 | Toggling a queued entry keeps the selection duplicate-free and drawn from the queue |
| Rotation.BumpedCounts | src/pages/Index.jsx:101-107 | A player released n times gains n games, and only released players gain a count entry |
| Rotation.StampedValues | src/pages/Index.jsx:92-99 | Every released player carries the one release timestamp; everyone else keeps a timestamp, or the lack of one |
| Rotation.BumpAll | src/pages/Index.jsx:101-107 | The `forEach` loop computes exactly the bumped games map |
| Rotation.StampAll | src/pages/Index.jsx:93-99 | The `forEach` loop computes exactly the stamped timestamp map |
| Rotation.Candidates | src/pages/Index.jsx:119-128 | The candidate list never exceeds the free slots of the court |
| Rotation.CandidatesTakeFront | src/pages/Index.jsx:122-128 | The candidates are the longest front of the queue (no selection) or of the selection that fits the free slots |
| Rotation.CourtAt | src/pages/Index.jsx:11-14 | Only ids 1 and 2 name a court, and court id sits at position id - 1 |
| Rotation.JoinPopulation | src/pages/Index.jsx:56-58 | Joining the queue adds exactly one entry to the population of queue and courts |
| Rotation.JoinKeepsDistinct | src/pages/Index.jsx:56-58 | A fresh name joins without anybody standing in two places |
| Rotation.ReleaseStep | src/pages/Index.jsx:111 | After a release the courts still hold at most four players each, with marks only on occupied positions |
| Rotation.ReleaseConserves | src/pages/Index.jsx:109-111 | Moving the released players from the court to the queue neither adds nor loses anybody |
| Rotation.ReleasePopulation | src/pages/Index.jsx:76-111 | "Remove Players", with its re-sorted queue, keeps the population of queue and courts unchanged |
| Rotation.RejoinStep | src/pages/Index.jsx:109 | Appending and re-sorting gives a sorted queue in which every queued player has a timestamp, and nobody queued leaves |
| Rotation.ReleaseQueueStep | src/pages/Index.jsx:92-109 | After a release the queue is sorted by the new games and timestamps, and the untouched selection stays drawn from it |
| Rotation.ReleaseKeepsPageOk | src/pages/Index.jsx:76-114 | A release keeps the whole page invariant |
| Rotation.AppendIsUpdate | src/pages/Index.jsx:131-136 | With distinct court ids, the page's `map` over the courts changes the target court alone |
| Rotation.AssignStep | src/pages/Index.jsx:119-136 | Adding at most the free number of players keeps every court at four or fewer |
| Rotation.CandidatesFromQueue | src/pages/Index.jsx:122-128 | The candidates all come from the queue, and they are duplicate-free when the queue is |
| Rotation.TakeOutStep | src/pages/Index.jsx:138-139 | Filtering a sorted queue keeps it sorted, so the page's re-sort returns it unchanged |
| Rotation.AssignKeepsPageOk | src/pages/Index.jsx:130-141 | An assignment within capacity keeps the page invariant, with the selection cleared, and its queue is the filtered old queue |
| Rotation.DistinctQueue | src/pages/Index.jsx:56 | A queue within a population where nobody appears twice is duplicate-free |
| Rotation.MoveConserves | src/pages/Index.jsx:131-139 | Moving distinct queued players to the end of a court neither adds nor loses anybody |
| Rotation.AssignConserves | src/pages/Index.jsx:117-141 | With nobody queued twice, "Add Players from Queue" keeps the population of queue and courts unchanged |
| Rotation.AssignDropsQueuedTwin | src/pages/Index.jsx:124-138 | When one copy of a name queued twice is chosen and another stays behind, the filter drops both while the court gains one, so one entry is lost (shown for a five-entry queue whose last entry repeats the first, on an empty court) |
| Rotation.AssignKeepsDistinct | src/pages/Index.jsx:117-141 | "Add Players from Queue" never makes anybody stand in two places |
| Rotation.DropKeepsKeys | src/pages/Index.jsx:156-165 | The players left in the queue keep their games and timestamps after the removed name's entries are deleted |
| Rotation.DropKeepsQueueOk | src/pages/Index.jsx:152-165 | Removing a name, with its games and timestamp, leaves a sorted queue whose players all have timestamps |
| Rotation.DropKeepsSelectionOk | src/pages/Index.jsx:153-155 | Removing a name from queue and selection keeps the selection duplicate-free and drawn from the queue |
| Rotation.DropStep | src/pages/Index.jsx:152-165 | After removing a name the queue and selection stay well formed, and the re-sort changes nothing |
| Rotation.DropCounts | src/pages/Index.jsx:153 | Removing a name takes away all of its queue entries and no other entry |
| Rotation.DropPopulation | src/pages/Index.jsx:152-154 | Removing a name from the queue takes away its queue entries and nothing else; whoever has that name on a court stays |
| Rotation.DropKeepsDistinct | src/pages/Index.jsx:152-154 | Removing a name never makes anybody stand in two places |
| Rotation.Engine.constructor | src/pages/Index.jsx:11-19 | Two empty unmarked courts with ids 1 and 2; an empty queue, empty maps and an empty selection; the invariant holds |
| Rotation.Engine.HandleCheckboxChange | src/pages/Index.jsx:22-31 | The courts become `ToggleMark` of the old ones; nothing else changes and the invariant holds |
| Rotation.Engine.AddPlayerToQueue | src/pages/Index.jsx:53-68 | A name whose trim is shorter than two UTF-16 code units changes nothing; a valid one gets 0 games and timestamp `now`, and the queue becomes the sorted old queue plus the name; courts and selection are unchanged |
| Rotation.Engine.RemovePlayersFromCourt | src/pages/Index.jsx:76-115 | An unknown id releases nobody and changes nothing. Otherwise it returns the `Released` players, the court keeps `Remaining` and loses its marks, the released players gain a game and timestamp `now`, and the queue becomes the re-sorted old queue plus the released players. The selection is unchanged and the invariant holds |
| Rotation.Engine.AddPlayersToCourt | src/pages/Index.jsx:117-142 | Returns the candidates, which fit the court. With none, nothing changes. Otherwise they are appended to that court alone, the queue becomes the filtered old queue and the selection is cleared. Games and timestamps are unchanged and the invariant holds |
| Rotation.Engine.HandlePlayerSelection | src/pages/Index.jsx:144-150 | The selection becomes `Toggled` of the old one; nothing else changes and the invariant holds |
| Rotation.Engine.RemovePlayerFromQueue | src/pages/Index.jsx:152-166 | Every entry with the name leaves the queue and the selection, its games and timestamp are deleted, the courts are unchanged, and the invariant holds |

## Left out

- Remote I/O is not modelled. This covers the Supabase reads and writes awaited in `src/components/CourtManager.jsx:42-47, 66-68` and `src/components/QueueManager.jsx:22-23, 53-56`, and the hooks under `src/integrations/`. Only the local state update after them is modelled. The id of a newly inserted player is a parameter (`newId`).
- React batches and defers `setState`, and this is not modelled. Each handler is one atomic transition, and its re-sort reads the updated games and timestamps. On the page, the sort's closure still sees the old maps. A new name therefore has no timestamp during its first sort, and the comparator returns `NaN` for it on equal games.
- A missing timestamp reads as 0 rather than `NaN`. The invariant `Rotation.QueueOk` guarantees that every queued player has a timestamp, so the default is never used for a queued player.
- `Date.now()` is a parameter, `now`, of the handlers that read the clock.
- Rendering, toasts, Enter-key handling, the text input and badge colours are not modelled. The disabled state of "Join Queue" is the same check as `ValidName`.
- Shuttlecock amounts (floating point, `toFixed(2)`) and `incrementShuttlecockCount` are not modelled. The increment is a prop whose body is not part of this model. Only its enable rule is kept (`CourtManager.EquipmentRule`).
- `src/pages/api/auth.js` is not part of this model.
- CourtManager.RemovePlayersFromCourt: requires a known court id, because the component reads `court.checkedPlayers` ("Remove 2") or `court.players` ("Remove All") of an undefined court and throws on an unknown id; the buttons only pass rendered court ids.
- CourtManager.RemovePlayersFromCourt: reads the released players and filters the courts in one snapshot. The component computes the released players from the courts it captured, then filters `prevCourts` after the awaited deletes; a court change made meanwhile is not modelled.
- Rotation.Engine.AddPlayersToCourt: requires a known court id, because the page reads `court.players` of an undefined court and throws on an unknown id.
- Rotation.Engine.HandleCheckboxChange: requires the index of an occupied position, and Rotation.Engine.HandlePlayerSelection requires a queued player. These are the only arguments the rendered checkboxes can pass.
- Rotation.AssignConserves: requires that nobody is queued twice. The page never checks whether a name is already present, and with a duplicate the filter drops every copy of a chosen name (`Rotation.AssignDropsQueuedTwin`).
- Rotation.JoinKeepsDistinct: requires a fresh name, for the same reason.
- Rotation.Engine methods: the population of queue and courts is stated in lemmas over the exact post-state each method's `ensures` gives, not in the methods' own contracts. These lemmas are `ReleasePopulation`, `AssignConserves`, `JoinPopulation` and `DropPopulation`.
- CourtManager.ByValueRemovalKeepsRemaining: requires distinct occupants on the court. The component removes players by reference, which is modelled as value equality on `{id, name}` records.
- CourtManager.MarkedOccupant, CourtManager.FilterMarkedFrom, CourtManager.RemoveTwoTakesMarkedPair: require distinct occupants for the same reason. Two equal records on one court are one value in the model, so with marks on positions 0 and 2 of `[A, A, B]` the by-value filter takes all three off; with distinct objects the source would keep one `A`.
- QueueManager.SelectionStaysInQueue, Seqs.ToggledTwice: the component's selection toggle compares object references (`prev.includes(player)`, `p !== player`); the model applies `Seqs.Toggled` to `{id, name}` values, so two distinct objects holding the same id and name count as one entry.
- Array sorting is modelled as a stable insertion sort (`Fairness.SortQueue`) rather than as the JavaScript engine's own `Array.prototype.sort`. Only its result matters: a stable, sorted permutation.
