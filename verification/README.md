# Distributed worker coordination — a Dafny model

This project models the sequential core of a .NET worker fleet that coordinates through
etcd. Each worker process keeps a node-local `ClusterState`. It watches the `cluster/`
key prefix for liveness keys (`cluster/lease/<nodeId>`) and for the assignment key
(`cluster/segments`). While it is the elected leader, it recomputes and publishes the
assignment of the numbered work segments `[0, TotalSegments)` to the live nodes.

Four pieces are modelled:

- **`SegmentDistributor`** (`segment_distributor.dfy`). `DistributeEvenly` splits
  `[0, total)` into consecutive blocks over an ordered node list. The first `total % n`
  nodes get one segment more than the rest. The `for` loop is the recursive `Assign`, one
  call per iteration, and `AssignCorrect` is its loop invariant. It is proved against the closed forms `Share(i) = total/n + (i < total%n ? 1 : 0)`
  and `Start(i) = i*(total/n) + min(i, total%n)`.
- **`ClusterState`** (`cluster_state.dfy`). This is an immutable record: membership set,
  local segment list, lease id, lease flag and leader flag. Every mutator is a pure
  transition function. Each of the two payload-less notification channels is a counter of
  the tokens written to it. The lock only makes each access atomic, so it is not modelled.
- **`WatchService`** (`watch_service.dfy`). One watch response is a sequence of
  put/delete events, folded left to right over the state. Each event is routed by key
  shape. A liveness key's node id is the third `/`-separated piece. Assignment events are
  applied only while a lease is held. JSON decoding is a parameter `decode`. Two
  exceptions escape the handler: `Split("/")[2]` on a short key, and the deserializer on
  malformed JSON. Both appear as `Threw(state, fault)`. That state already includes the
  changes made by the earlier events of the same response.
- **`AssignmentManager`** (`assignment_manager.dfy`). This is what one cluster-changed
  token does. A follower does nothing. A leader with an empty membership skips. Otherwise
  the leader publishes `DistributeEvenly(membership, TotalSegments)` under
  `cluster/segments`, scoped to its current lease id. The outcome of the etcd put is a
  parameter. A failed put is swallowed.

`Composition` (`composition.dfy`) joins the pieces. A lease-holding member that receives
the leader's publication ends up with exactly its own contiguous block, for any
enumeration order of the membership set. The published lists partition `[0, TotalSegments)`.
The lease invariant `!hasLease ==> leaseId == 0` survives any interleaving of mutator
calls and watch responses, starting from the initial state.

`Strings` (`strings.dfy`) models the .NET string operations the code uses: `StartsWith`,
`Split` and `IsNullOrWhiteSpace`. `Keys` (`keys.dfy`) holds the key layout.

Getters (`GetLeaseId`, `HasLease`, `IsLeader`, `GetMySegments`) are field reads of the
immutable state, so they cannot change it. `GetKnownNodes` is a method that lists the
membership set in an arbitrary order, because the iteration order of a hash set is
unspecified.

Two behaviours of the code are stated as lemmas:

- A leader whose lease has lapsed publishes until the election loop clears its flag.
  It publishes with lease id 0, and an etcd put with lease 0 is bound to no lease
  (`LapsedLeaderPublishesUnleased`, `LapsedLeaderIsReachable`).
- A node id containing `/` is read back truncated to its first piece
  (`SlashInNodeIdIsTruncated`).

Three edge behaviours of the code are pinned down:

- For 3 nodes and 10 segments, the code gives `A:[0,1,2,3] B:[4,5,6] C:[7,8,9]`: the
  single extra segment goes to the first node (`ThreeNodesTenSegments`).
- A malformed assignment payload throws. The deserializer's exception is not caught
  (`ProcessAssignments` returns `Threw(s, PayloadNotJson)`). Only a blank payload or a
  JSON `null` leaves the state untouched.
- An assignment-key delete clears the local segments only while a lease is held. The
  lease check comes first (`HandleAssignmentsEvent`).

## Model

| member | source | states |
|---|---|---|
| `SegmentDistributor.DistributeEvenly` | DistributedWorker/Services/SegmentDistributor.cs:5-33 | no nodes or a non-positive total gives the empty map; otherwise the keys are exactly the listed nodes, and the node at (last) position i owns the block `Range(Start(i), Share(i))`; a repeated name keeps the block of its last position |
| `SegmentDistributor.Assign` | DistributedWorker/Services/SegmentDistributor.cs:20-30 | the `for` loop itself, one call per iteration: node i gets the `countForNode` ids from `currentSegment`, which then advances; its correctness is `AssignCorrect` |
| `SegmentDistributor.AssignCorrect` | DistributedWorker/Services/SegmentDistributor.cs:20-30 | the loop invariant: run from the state the first i iterations leave (keys are the first i names, each mapped to the block of its latest position, `currentSegment` at block i's start), the remaining iterations map every listed name to the block of its latest position |
| `SegmentDistributor.AssignStep` | DistributedWorker/Services/SegmentDistributor.cs:22-29 | one iteration: the `countForNode` ids from `currentSegment` are exactly node i's block, `currentSegment` advances to block i+1's start, and the invariant extends to i+1 |
| `SegmentDistributor.Range` | DistributedWorker/Services/SegmentDistributor.cs:24-26 | `Enumerable.Range(start, count)` is the `count` consecutive ascending ids from `start` |
| `SegmentDistributor.StartStep` | DistributedWorker/Services/SegmentDistributor.cs:22-29 | block i+1 starts exactly where block i ends (contiguity) |
| `SegmentDistributor.StartAtEnd` | DistributedWorker/Services/SegmentDistributor.cs:29 | after the last node, `currentSegment` equals the total |
| `SegmentDistributor.StartMonotone` | DistributedWorker/Services/SegmentDistributor.cs:18-29 | blocks appear in ascending order of node position |
| `SegmentDistributor.SharesBalanced` | DistributedWorker/Services/SegmentDistributor.cs:14-22 | each node gets `total/n` or `total/n + 1` segments, the first `total % n` nodes (and only those) get the extra one, and any two counts differ by at most 1 |
| `SegmentDistributor.BlocksAreRange` | DistributedWorker/Services/SegmentDistributor.cs:18-29 | the first k blocks laid end to end are exactly `0 .. Start(k)-1`, beginning at 0 |
| `SegmentDistributor.DistributionConcatenatesToRange` | DistributedWorker/Services/SegmentDistributor.cs:20-30 | for distinct names, the lists concatenated in node order are exactly `[0, 1, ..., total-1]` |
| `SegmentDistributor.DistributionSizesSumToTotal` | DistributedWorker/Services/SegmentDistributor.cs:29 | for distinct names, the list lengths add up to the total |
| `SegmentDistributor.DistributionIsPartition` | DistributedWorker/Services/SegmentDistributor.cs:20-30 | for distinct names, every id in `[0, total)` is in exactly one node's list and no list holds an id outside it |
| `SegmentDistributor.ThreeNodesTenSegments` | DistributedWorker/Services/SegmentDistributor.cs:14-30 | for any three distinct nodes and ten segments, the first node gets `[0,1,2,3]`, the second `[4,5,6]` and the third `[7,8,9]` |
| `SegmentDistributor.ThreeNamedNodesTenSegments` | DistributedWorker/Services/SegmentDistributor.cs:14-30 | the nodes `A`, `B`, `C` with ten segments give `A:[0..3] B:[4..6] C:[7..9]` |
| `Strings.StartsWith` | DistributedWorker/Cluster/WatchService.cs:61 | a key starts with a prefix exactly when it is that prefix followed by some rest |
| `Strings.IsWhiteSpace` | DistributedWorker/Cluster/WatchService.cs:122 | the characters `Char.IsWhiteSpace` accepts: space, U+0009..U+000D, U+0085, U+00A0, U+1680, U+2000..U+200A, U+2028, U+2029, U+202F, U+205F, U+3000 |
| `Strings.IsBlank` | DistributedWorker/Cluster/WatchService.cs:122 | `IsNullOrWhiteSpace` of a non-null string: empty or whitespace only |
| `Strings.Split` | DistributedWorker/Cluster/WatchService.cs:77 | `Split` yields one more piece than there are separators, and no piece contains the separator |
| `Strings.JoinSplit` | DistributedWorker/Cluster/WatchService.cs:77 | joining the pieces with the separator gives back the key |
| `Strings.SplitAtFirstSeparator` | DistributedWorker/Cluster/WatchService.cs:77 | the text before the first separator is the first piece, and the rest is split on its own |
| `Keys.NodeIdComponent` | DistributedWorker/Cluster/WatchService.cs:77 | a third piece exists exactly when the key has at least two `/` (otherwise the indexer throws), and it never contains `/` |
| `Keys.LeaseKey` | DistributedWorker/Cluster/LeaseManagerService.cs:73 | the liveness key `cluster/lease/<nodeId>`; its pieces and round trip are `LeaseKeyPieces` and `LeaseKeyRoundTrip` |
| `Keys.LeaseKeyPieces` | DistributedWorker/Cluster/LeaseManagerService.cs:73 | splitting a liveness key at `/` gives `cluster`, `lease` and then the pieces of the node id |
| `Keys.LeaseKeyRoundTrip` | DistributedWorker/Cluster/LeaseManagerService.cs:73 | the liveness key written for a node id without `/` is under the watched prefix, is routed as a liveness key, is not the assignment key, and yields the same node id back |
| `Keys.AssignmentsKeyShape` | DistributedWorker/Cluster/Constants.cs:7-9 | the assignment key is under the watched prefix and does not start with the liveness prefix |
| `Keys.SlashInNodeIdIsTruncated` | DistributedWorker/Cluster/WatchService.cs:77 | the node id `a/b` is read back from its liveness key as `a` |
| `ClusterState.Initial` | DistributedWorker/Cluster/ClusterState.cs:9-13 | a fresh state: no known nodes, no segments, lease id 0, no lease, not leader, no tokens; it satisfies the lease invariant (`LeaseInvariantFromInitial`) |
| `ClusterState.GetKnownNodes` | DistributedWorker/Cluster/ClusterState.cs:22-26 | the returned list holds each known node exactly once, in an unspecified order |
| `ClusterState.SetLeaseId` | DistributedWorker/Cluster/ClusterState.cs:106-110 | stores the id, changes nothing else, and never writes a token |
| `ClusterState.SetHasLease` | DistributedWorker/Cluster/ClusterState.cs:112-124 | sets the flag; exactly one processing token is written if the flag flipped and none otherwise; nothing else changes |
| `ClusterState.SetIsLeader` | DistributedWorker/Cluster/ClusterState.cs:126-138 | sets the flag; exactly one cluster token is written if the flag flipped and none otherwise; nothing else changes |
| `ClusterState.SetupLease` | DistributedWorker/Cluster/ClusterState.cs:52-56 | afterwards the lease is held with the given id; one processing token iff no lease was held before; nothing else changes |
| `ClusterState.ResetLease` | DistributedWorker/Cluster/ClusterState.cs:58-62 | afterwards no lease is held and the id is 0; one processing token iff a lease was held; nothing else changes |
| `ClusterState.BecomeLeader` | DistributedWorker/Cluster/ClusterState.cs:64 | afterwards the node is leader; one cluster token iff it was not; nothing else changes |
| `ClusterState.LoseLeadership` | DistributedWorker/Cluster/ClusterState.cs:65 | afterwards the node is not leader; one cluster token iff it was; nothing else changes |
| `ClusterState.UpdateSegments` | DistributedWorker/Cluster/ClusterState.cs:69-81 | afterwards the local segments equal the new list; one processing token iff the old list differed element-wise; nothing else changes |
| `ClusterState.ResetMySegments` | DistributedWorker/Cluster/ClusterState.cs:67 | afterwards the local segments are empty; one processing token iff they were not; nothing else changes |
| `ClusterState.AddKnownNode` | DistributedWorker/Cluster/ClusterState.cs:83-91 | afterwards the node is known; one cluster token iff it was not known before; nothing else changes |
| `ClusterState.RemoveKnownNode` | DistributedWorker/Cluster/ClusterState.cs:93-101 | afterwards the node is unknown; one cluster token iff it was known; removing an unknown node is a no-op |
| `ClusterState.Apply` | DistributedWorker/Cluster/ClusterState.cs:52-101 | for every public mutator, the cluster channel gets a token exactly when membership or leadership changed, and the processing channel exactly when the lease flag or the local segments changed; the node id never changes; the lease invariant is kept |
| `ClusterState.CommandIdempotent` | DistributedWorker/Cluster/ClusterState.cs:52-101 | calling any public mutator twice with the same argument is the same as calling it once; the repeat writes no token |
| `ClusterState.AddThenRemove` | DistributedWorker/Cluster/ClusterState.cs:83-101 | a new node added and removed again restores the membership, after two cluster tokens |
| `ClusterState.RunKeepsLeaseInvariant` | DistributedWorker/Cluster/ClusterState.cs:52-62 | `!hasLease ==> leaseId == 0` holds after any sequence of public mutator calls from a state where it holds |
| `ClusterState.LeaseInvariantFromInitial` | DistributedWorker/Cluster/ClusterState.cs:11-12 | starting from the initial 0/false fields, the lease invariant holds after every sequence of public mutator calls |
| `ClusterState.BareLeaseIdBreaksInvariant` | DistributedWorker/Cluster/ClusterState.cs:106-110 | the private id setter on its own can break the invariant, which is why it is always paired with the flag |
| `WatchService.ExtractMySegments` | DistributedWorker/Cluster/WatchService.cs:141-145 | this node's entry of the assignment, or the empty list when it has none |
| `WatchService.ProcessAssignments` | DistributedWorker/Cluster/WatchService.cs:120-138 | a blank payload or a JSON `null` leaves the state unchanged; a malformed payload throws with the state unchanged; a decoded dictionary sets the local segments to this node's entry (empty if absent); one processing token exactly when the segments changed; nothing else is touched |
| `WatchService.HandleAssignmentsEvent` | DistributedWorker/Cluster/WatchService.cs:102-118 | without a lease, any assignment event (put or delete) leaves the state unchanged; with a lease, a delete empties the local segments and a put is processed; one processing token exactly when the segments changed; nothing else is touched |
| `WatchService.HandleLeaseEvent` | DistributedWorker/Cluster/WatchService.cs:75-100 | the node id is the third `/` piece; a put adds it to the membership and a delete removes it; a key with fewer pieces throws; one cluster token exactly when the membership changed (so a repeated put or a delete of an unknown node writes none); nothing else is touched |
| `WatchService.HandleSingleEvent` | DistributedWorker/Cluster/WatchService.cs:55-73 | keys starting with `cluster/lease` go to the lease handler, the key `cluster/segments` goes to the assignment handler, any other key leaves the state unchanged; lease, lease id, leadership and node id are never changed; one cluster token exactly when the membership changed and one processing token exactly when the local segments changed |
| `WatchService.HandleEvents` | DistributedWorker/Cluster/WatchService.cs:49-52 | the events are applied left to right; the watcher never changes lease or leadership, never changes the local segments of a node without a lease, and never decreases a token count |
| `WatchService.HandleClusterEvent` | DistributedWorker/Cluster/WatchService.cs:44-53 | a response with no events is a no-op; otherwise it is the left-to-right fold of its events |
| `WatchService.HandleEventsAppend` | DistributedWorker/Cluster/WatchService.cs:49-52 | handling two batches in turn is handling their concatenation, and an exception in the first batch ends it |
| `WatchService.HandleableEventsComplete` | DistributedWorker/Cluster/WatchService.cs:55-134 | if every liveness key has a third piece and every non-blank assignment put decodes, the response is handled without an exception |
| `WatchService.LivenessKeyEvents` | DistributedWorker/Cluster/WatchService.cs:75-100 | a put on the liveness key of a node id without `/` is exactly `AddKnownNode` of that id, and a delete is exactly `RemoveKnownNode` |
| `WatchService.KnownNodeLeaves` | DistributedWorker/Cluster/WatchService.cs:84-100 | deleting a known node's liveness key shrinks the membership by exactly that node and writes one cluster token |
| `WatchService.NoLeaseKeepsSegments` | DistributedWorker/Cluster/WatchService.cs:102-108 | a node without a lease keeps its local segments through any watch response |
| `AssignmentManager.RefreshAssignments` | DistributedWorker/Cluster/AssignmentManagerService.cs:32-53 | an empty membership publishes nothing; otherwise it publishes under `cluster/segments`, with the current lease id, an assignment whose keys are the membership and where the node at position i of the enumeration owns block i (the empty map for a non-positive total) |
| `AssignmentManager.OnClusterChanged` | DistributedWorker/Cluster/AssignmentManagerService.cs:23-28 | a token leads to a publication iff the node is leader and its membership is non-empty; a follower never publishes |
| `AssignmentManager.LapsedLeaderPublishesUnleased` | DistributedWorker/Cluster/AssignmentManagerService.cs:25-52 | a leader that no longer holds a lease still publishes, with lease id 0 |
| `AssignmentManager.LapsedLeaderIsReachable` | DistributedWorker/Cluster/ClusterState.cs:52-65 | the public mutators reach a state that is leader, holds no lease and has lease id 0 |
| `AssignmentManager.HandleToken` | DistributedWorker/Cluster/AssignmentManagerService.cs:32-62 | a failed put, a follower or an empty membership leaves the store unchanged; a successful leader put replaces only the `cluster/segments` entry, with the distribution and the leader's lease id |
| `AssignmentManager.DrainTokens` | DistributedWorker/Cluster/AssignmentManagerService.cs:23-29 | the tokens are handled one after another, and the whole run writes no key other than `cluster/segments` |
| `AssignmentManager.DrainTokensAppend` | DistributedWorker/Cluster/AssignmentManagerService.cs:23-29 | tokens are handled one after another; a run over two batches is the second batch applied to the result of the first |
| `AssignmentManager.FailedPutLeavesNoTrace` | DistributedWorker/Cluster/AssignmentManagerService.cs:59-62 | a token whose put failed has no effect on the rest of the run: nothing is retried until a later token |
| `AssignmentManager.FollowerNeverPublishes` | DistributedWorker/Cluster/AssignmentManagerService.cs:23-25 | a run of tokens that all arrive while the node is not leader leaves the store unchanged |
| `Composition.MemberReceivesOwnBlock` | DistributedWorker/Cluster/AssignmentManagerService.cs:44-53 | for any enumeration order, a lease-holding member that receives the leader's publication through the watch ends up with the contiguous block of its position; the published lists partition `[0, TotalSegments)` |
| `Composition.StrangerReceivesNothing` | DistributedWorker/Cluster/WatchService.cs:141-145 | a lease-holding node missing from the leader's membership is left with no segments |
| `Composition.HistoryKeepsLeaseInvariant` | DistributedWorker/Cluster/ClusterState.cs:52-62 | any interleaving of mutator calls and watch responses, including responses that threw, keeps `!hasLease ==> leaseId == 0` |
| `Composition.InitialHistoryKeepsLeaseInvariant` | DistributedWorker/Cluster/ClusterState.cs:11-12 | the same, starting from a freshly constructed state |

## Left out

- The control loops of `LeaseManagerService`, `LeaderElectionService` and `WorkerService` are not modelled: lease grant, keepalive and revoke; campaign, poll and resign; the cancel-and-restart processing loop and its timer. They are I/O and supervision around the etcd client. Their effect on local state goes only through the mutators above, and `Command` covers those mutators. The campaign path ends in `LoseLeadership` on every exit (LeaderElectionService.cs:73-76); only the mutator itself is modelled.
- The per-token decision and the lease-gated assignment update are modelled as reads of one consistent state. In the code they are separate lock acquisitions: `IsLeader()`, `GetKnownNodes()` and `GetLeaseId()` (AssignmentManagerService.cs:25, 36, 52), and `HasLease()` followed by `ResetMySegments`/`UpdateSegments` (WatchService.cs:104, 113, 134). A `ResetLease` or `LoseLeadership` from another service between those reads could make a token publish after leadership is gone or with lease id 0, or install segments on a node whose lease was just cleared. `OnClusterChanged`, `HandleToken` and `HandleAssignmentsEvent` hold for a consistent snapshot only.
- The lock, and the draining and coalescing of tokens by channel readers, are not modelled. Concurrency and interleaving inside a compound mutator are out too: `ResetLease` briefly leaves the flag cleared with a stale id. Each public mutator is modelled as one atomic step.
- JSON is not modelled. Deserialisation is the parameter `decode`, with three outcomes: dictionary, `null`, exception. Serialisation by the leader is abstracted: a publication carries the assignment itself. `MemberReceivesOwnBlock` takes as a hypothesis that the payload decodes to that assignment.
- WatchService.ExtractMySegments: a JSON `null` as a node's list is not representable in the decoded dictionary. The source would pass a null list to `UpdateSegments` and throw there.
- Only the two etcd event types (put, delete) are represented. UTF-8 decoding of keys and values is taken as given.
- What the etcd client does with an exception thrown from the watch callback is not modelled. The model stops the batch and reports the state reached.
- Expiry of a lease inside etcd, and with it the removal of keys bound to the lease, is store behaviour and not modelled. The delete event it produces is modelled.
- `StartsWith` is modelled as an ordinal prefix test. The source uses the culture-sensitive default, which agrees with it on the ASCII keys used here.
- Integer widths are not modelled. The lease id is a 64-bit value that is only stored and compared. Segment ids and `TotalSegments` are 32-bit. Every id stays inside `[0, TotalSegments)`, so no overflow occurs. Token counters are unbounded because the channels are unbounded.
- The node id comes from the `NODE_ID` environment variable or a fresh GUID. It is a fixed field of the state.
- Hosting and configuration (`Program.cs`, `ClusterOptions.cs`) are not modelled. `TotalSegments` is a plain parameter.
