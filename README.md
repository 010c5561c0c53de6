# GCounter CRDT in Dafny

This project models the core of a grow-only counter (GCounter) replicated across a cluster of nodes.
Each node owns one slot of a map from node name to count. A node increments only its own slot.
Replicas converge by merging: a merge keeps, per node, the larger of the counts it sees. An
anti-entropy loop pulls every peer's map and folds it into the local counter.

The model has three layers.

- `SlotMaps` (slot_maps.dfy) is the value semantics of one Count map, as pure functions and
  lemmas. `Get` reads a map the Go way: an absent node reads as 0. `Join` is one pass of Merge's
  inner loop. `JoinAll` folds views into an accumulator. `MergeAll` is what `Merge(GCounters...)`
  computes. `SlotMax` is an independent reference definition of a merged slot. `Total` is the sum
  of the slots. `Below` is the grow-only order. The lemmas prove the join-semilattice laws: per-node
  maximum, least upper bound, idempotence, commutativity, associativity and order independence.
  They also prove how the total moves under increment, overwrite and merge.
- `GCounters` (gcounter.dfy) keeps Go's reference semantics visible. The class `CountMap` is a
  Go `map[string]int` object. The datatype `GCounter` is the struct, a value whose only field
  refers to that map; `null` is a nil map. The value-receiver methods `Increment`, `SetCount` and
  `Clear` therefore change the caller's map in place. `Merge` writes into its first argument's map
  and returns that same struct. Each method is proved against the `SlotMaps` functions.
- `AntiEntropy` (sync.dfy) is the `Sync` loop. The peer list and each peer's fetch outcome
  (`Failure`, or `Success` with the decoded map) are parameters. `Sync` is proved to leave the
  local counter equal to the fold of every successful, non-empty view into it.
- `Scenarios` (scenarios.dfy) restates each of the fourteen tests of gcounter/gcounter_test.go,
  and two sync scenarios, as client methods. They rely only on the contracts above. The Go tests
  share one package-level counter and reset it with `Clear` to {test-node: 0} after each test; each
  scenario instead starts from `Initialize`, which yields the same map.

Go ranges over a map in an unspecified order. The loops here pick the next key with `:|`, so
every order is covered.

Where the behaviour a GCounter is usually expected to have and the code differ, the model follows
the code:

- A merge of replicas is usually a new, independent counter. The code writes into argument 0's
  map and returns it (gcounter/gcounter.go:81, :86). `GCounters.Merge` states exactly that.
- A grow-only counter's slots are meant to be non-negative, but `SetCount` accepts any value. An absent node
  reads as 0 in the accumulator, so a lone negative count becomes 0 unless it sits in the first
  argument. Commutativity and order independence are therefore proved for non-negative counts
  only. `SlotMaps.NegativeCountBreaksOrderIndependence` exhibits the two orders that differ.
- Merging with an all-zero counter is expected to yield the original. That holds for the empty
  counter (`SlotMaps.MergeWithEmptySecond`, `SlotMaps.MergeWithEmptyFirst`). A zero slot for a node the original lacks is added as a new
  key, which leaves the total unchanged.
- A node with no peers is simply alone, not in error. The code's `Sync` returns an error then,
  which its only caller ignores. `AntiEntropy.Sync` returns that error.

## Model

| member | source | states |
|---|---|---|
| SlotMaps.Get | gcounter/gcounter.go:86 | reading a present node yields its count, and reading an absent node yields 0, as a Go map read does |
| SlotMaps.Max | gcounter/gcounter.go:128-133 | the result is at least both arguments and is one of them |
| SlotMaps.Join | gcounter/gcounter.go:85-87 | the key set is the union of both key sets; the result is above both inputs in the grow-only order; each value is the accumulator's count (0 if absent) or the view's; a non-negative accumulator stays non-negative |
| SlotMaps.JoinAbsorbs | gcounter/gcounter.go:84-88 | joining a map that is already below the accumulator leaves the accumulator unchanged, whatever the signs |
| SlotMaps.JoinLeast | gcounter/gcounter.go:86 | every non-negative map above both inputs is above their join |
| SlotMaps.JoinGet | gcounter/gcounter.go:86 | over a non-negative accumulator, each slot of the join is the larger of the two slots, an absent slot reading as 0 |
| SlotMaps.JoinCommutative | gcounter/gcounter.go:86 | Merge(a, b) == Merge(b, a) for non-negative counters |
| SlotMaps.JoinAssociative | gcounter/gcounter.go:86 | Merge(Merge(a, b), c) == Merge(a, Merge(b, c)) for non-negative counters |
| SlotMaps.JoinAll | gcounter/gcounter.go:84-88 | the fold is above the accumulator and above every view; each of its keys comes from the accumulator or a view; a non-negative accumulator stays non-negative |
| SlotMaps.MergeAll | gcounter/gcounter.go:79-92 | the merge is above every input, and its key set is exactly the union of the inputs' key sets |
| SlotMaps.SlotMax | gcounter/gcounter.go:76-78 | reference definition of a merged slot: at least every input's count for the node (absent read as 0) and equal to one of them |
| SlotMaps.JoinAllIsSlotMax | gcounter/gcounter.go:84-88 | for non-negative inputs, each slot of the fold equals the per-node maximum over the accumulator and all views |
| SlotMaps.MergeAllIsSlotMax | gcounter/gcounter.go:76-92 | for non-negative inputs, each slot of the merge equals the per-node maximum over all inputs |
| SlotMaps.JoinAllLeast | gcounter/gcounter.go:84-88 | the fold is below every non-negative upper bound of the accumulator and the views |
| SlotMaps.MergeAllLeast | gcounter/gcounter.go:79-92 | the merge is the least upper bound of its inputs among non-negative counters |
| SlotMaps.MergeAllOrderIndependent | gcounter/gcounter.go:76-88 | two argument lists holding the same non-negative counters, in any order and with any repetition, merge to the same counter |
| SlotMaps.JoinAllAbsorbs | gcounter/gcounter.go:84-88 | folding views that are all below the accumulator leaves it unchanged |
| SlotMaps.MergeAllIdempotent | gcounter/gcounter_test.go:206-217 | merging copies of one counter yields that counter |
| SlotMaps.MergeAllOfEmpty | gcounter/gcounter_test.go:190-201 | merging counters that are all empty yields an empty counter |
| SlotMaps.MergeWithEmptySecond | gcounter/gcounter.go:84-88 | merging a counter with an empty second counter gives the first counter back unchanged |
| SlotMaps.MergeWithEmptyFirst | gcounter/gcounter.go:84-88 | merging an empty first counter with a non-negative counter gives that counter back |
| SlotMaps.MergeOfTwo | handlers/sync.go:42 | Merge(local, view) is one join of the view into local, since joining local into itself first changes nothing |
| SlotMaps.JoinAllSelfFirst | gcounter/gcounter.go:81-88 | starting from argument 0 and visiting argument 0 again equals folding only the other arguments |
| SlotMaps.NegativeCountBreaksOrderIndependence | gcounter/gcounter.go:86 | with a count of -3, the two argument orders merge to {a: -3} and {a: 0} |
| SlotMaps.SumKeys | gcounter/gcounter.go:68-70 | the sum over no slots is 0, and a sum over non-negative slots is non-negative |
| SlotMaps.Total | gcounter/gcounter.go:62-74 | the total of all slots: 0 for an empty map and non-negative when every slot is |
| SlotMaps.SumKeysRemove | gcounter/gcounter.go:68-70 | the total can take any slot out first, so summing in any iteration order gives the same total |
| SlotMaps.TotalAfterSet | gcounter/gcounter.go:104-105 | overwriting a slot changes the total by the new value minus the old one (absent read as 0) |
| SlotMaps.TotalAfterIncrement | gcounter/gcounter.go:47-48 | an increment raises the total by exactly 1 |
| SlotMaps.TotalOfZeros | gcounter/gcounter_test.go:164-171 | a sum over slots that are all 0, or over none, is 0 |
| SlotMaps.TotalMonotone | gcounter/gcounter.go:62-74 | a non-negative counter above another in the grow-only order has at least its total |
| SlotMaps.SlotAtMostTotal | gcounter/gcounter.go:62-74 | in a non-negative counter every slot is at most the total |
| GCounters.NodeName | gcounter/gcounter.go:14-27 | the empty name becomes "node", and a non-empty name is kept as given |
| GCounters.CountMap.constructor | gcounter/gcounter.go:8-12 | a new Count map object holding the given entries; the struct GCounter is the datatype `GCounter`, whose one field is a reference to such an object, `null` being a nil map |
| GCounters.Contents | gcounter/gcounter.go:68-85 | what ranging over or reading the Count map sees: a nil map reads as empty, any other map as its entries |
| GCounters.InitialSlots | gcounter/gcounter.go:29-35 | the initial map holds exactly the one node, at 0, and totals 0 |
| GCounters.Initialize | gcounter/gcounter.go:22-36 | returns a counter with a newly allocated map equal to {node: 0}, with "node" for the empty name |
| GCounters.Increment | gcounter/gcounter.go:40-53 | the slot rises by exactly 1 (an absent slot becomes 1) and no other slot changes; the map is changed in place and that same map is returned; no slot goes down; the total rises by 1 |
| GCounters.GetCount | gcounter/gcounter.go:56-58 | returns the struct's own map reference, not a copy |
| GCounters.GetTotal | gcounter/gcounter.go:62-74 | returns the sum of all slots; a nil or empty map gives 0 |
| GCounters.JoinInto | gcounter/gcounter.go:85-87 | after ranging over one argument, the accumulator map equals its old contents joined with that argument |
| GCounters.JoinSharedMap | gcounter/gcounter.go:84-86 | an argument sharing argument 0's map is read as the accumulator itself; since the accumulator is above that argument's old contents, both readings leave it unchanged |
| GCounters.Merge | gcounter/gcounter.go:79-92 | writes into argument 0's map and returns argument 0; the new contents are the merge of all arguments' old contents, even when an argument shares argument 0's map; no slot of argument 0 goes down; a nil first map is allowed only if every argument is empty |
| GCounters.SetCount | gcounter/gcounter.go:97-109 | the slot becomes the given value and no other slot changes, in place; the same map is returned; the total moves by the difference |
| GCounters.Clear | gcounter/gcounter.go:112-124 | the old map is emptied in place, and a new map holding only {node: 0} is returned, whatever the prior contents |
| AntiEntropy.SendListRequest | handlers/sync.go:57-88 | an empty peer name is a failed fetch; otherwise the fetch's own outcome is returned; the result `Response` stands for the (GCounter, error) pair, `Failure` for any non-nil error and `Success(values)` for the decoded map |
| AntiEntropy.Mergeable | handlers/sync.go:30-39 | a failed fetch is skipped, and a successful one is folded in exactly when its map is non-empty |
| AntiEntropy.MergedViews | handlers/sync.go:29-43 | the views folded in are at most one per peer, and none is empty |
| AntiEntropy.MergedViewsOneMore | handlers/sync.go:29-43 | one more peer: a failed fetch or an empty map leaves the folded views as they were, and any other map is appended to them |
| AntiEntropy.MergedViewsAre | handlers/sync.go:29-43 | a view is folded in if and only if some peer with a non-empty name fetched it successfully and it is non-empty |
| AntiEntropy.Sync | handlers/sync.go:17-53 | with no peers, returns local unchanged and the error `NilPeersPresent` of line 24; otherwise the error is nil and local's own map becomes the fold of every successful non-empty view in peer order; the result is local itself; no slot goes down |
| AntiEntropy.SyncIsMerge | handlers/sync.go:42 | folding the views one Merge(local, view) at a time equals one Merge of local with all the views |
| AntiEntropy.SyncWithoutViews | handlers/sync.go:29-52 | when every peer failed or sent an empty map, no view is folded in, so the counter is returned as it was |
| AntiEntropy.SyncOrderIndependent | handlers/sync.go:29-43 | two peer lists pairing the same peers with the same outcomes, in any order and with any repetition, give the same counter when all counts are non-negative |
| AntiEntropy.SyncIsSlotMax | handlers/sync.go:29-43 | for non-negative counts, each slot after the sync is the largest count held for that node by local or any view folded in |
| Scenarios.GetCountAfterIncrement | gcounter/gcounter_test.go:26-35 | one increment of a fresh counter reads {test-node: 1} |
| Scenarios.GetCountOfFresh | gcounter/gcounter_test.go:56-63 | a fresh counter reads {test-node: 0} |
| Scenarios.TotalOfFresh | gcounter/gcounter_test.go:164-171 | a fresh counter totals 0 |
| Scenarios.IncrementReturnsCount | gcounter/gcounter_test.go:110-117 | the map Increment returns holds {test-node: 1} and is the counter's own map |
| Scenarios.SetCountOverwrites | gcounter/gcounter_test.go:82-93 | setting the slot to 5, 7 and 9 leaves {test-node: 9} |
| Scenarios.SetCountToZero | gcounter/gcounter_test.go:97-106 | setting the slot to 0 leaves {test-node: 0} |
| Scenarios.ClearFresh | gcounter/gcounter_test.go:136-145 | clearing a fresh counter gives {test-node: 0} |
| Scenarios.MergeDuplicates | gcounter/gcounter_test.go:206-217 | three separate counters with equal contents merge to those contents |
| Scenarios.IncrementThreeTimes | gcounter/gcounter_test.go:40-51 | three increments of a fresh counter give {test-node: 3} and a total of 3 |
| Scenarios.SetTwoNodes | gcounter/gcounter_test.go:67-77 | SetCount on two nodes gives {test-node: 5, testNode2: 7} |
| Scenarios.TotalOfSetSlots | gcounter/gcounter_test.go:149-160 | slots set to 1, 3 and 5 beside the initial 0 total 9 |
| Scenarios.ClearAfterIncrements | gcounter/gcounter_test.go:121-132 | after Clear the old map is empty and the returned one is {test-node: 0} |
| Scenarios.MergeThree | gcounter/gcounter_test.go:175-186 | the three counters merge to {node1: 4, node2: 6, node3: 9}, written into the first one |
| Scenarios.MergeNilCounters | gcounter/gcounter_test.go:190-201 | merging three zero-value counters returns a counter whose map is still nil |
| Scenarios.SyncWithOneFailingPeer | handlers/sync.go:29-43 | a failing peer contributes nothing, and a peer reporting {P2: 10} is folded in, giving {A: 0, P2: 10} with no error |
| Scenarios.SyncWithoutPeers | handlers/sync.go:23-25 | with no peers the counter stays {A: 0} and the error is returned |

## Left out

- HTTP transport and decoding: the URL building, GET request, status check and JSON decoding of `SendListRequest` (handlers/sync.go:66-87) and `SendRequest` with its 5-minute timeout (handlers/utils.go:33-48) are network I/O. Each peer's fetch is an input `Response`.
- Environment configuration: `GetPeerList`, `GetNetwork` and `GetMyNodeIP` (handlers/utils.go:13-30) read environment variables. The peer list and node name are parameters.
- HTTP handlers, routing and start-up: handlers/router.go, handlers/Count.go, handlers/Increment.go, handlers/Values.go and main.go are routing, response encoding and server wiring.
- Concurrency: the process-wide counter (handlers/router.go:13-22) is shared by handlers without a lock. The model is sequential.
- Logging: the logrus calls have no effect on the state.
- Go runtime panics are preconditions, not modelled failures. These are a write to a nil map in `Increment`, `SetCount` and `Merge`, and `Merge` with no arguments.
- The text of the errors is not modelled. `Failure` stands for any fetch error, and `NilPeersPresent` stands for the "nil peers present" error of `Sync`.
- GCounters.Increment: does not model wrap-around of Go's 64-bit `int`, because counts are unbounded integers here.
- GCounters.GetTotal: does not model overflow of the 64-bit sum, because the total is an unbounded integer here.
