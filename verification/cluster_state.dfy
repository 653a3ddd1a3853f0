/**
 `ClusterState`: the node-local record every service reads and mutates.

 The lock only makes each access atomic, so every public mutator is a pure transition
 function here. The two unbounded notification channels carry no payload; each is a
 counter of the tokens written to it (`clusterChanged`, `processingStateChanged`).
 The node id is fixed for the process lifetime and is a field set at construction.
 */
module ClusterState {

  datatype State = State(
    nodeId: string,
    knownNodes: set<string>,
    mySegments: seq<int>,
    leaseId: int,
    hasLease: bool,
    isLeader: bool,
    clusterChanged: nat,
    processingStateChanged: nat)

  /** A freshly constructed state: nothing known, no lease, not leader, no tokens. */
  function Initial(nodeId: string): State {
    State(nodeId, {}, [], 0, false, false, 0, 0)
  }

  /** The lease invariant: without a lease the stored lease id is 0. */
  predicate LeaseInvariant(s: State) {
    !s.hasLease ==> s.leaseId == 0
  }

  /** What the cluster-changed channel announces: membership and leadership. */
  function ClusterView(s: State): (set<string>, bool) {
    (s.knownNodes, s.isLeader)
  }

  /** What the processing-state channel announces: lease held and local segments. */
  function ProcessingView(s: State): (bool, seq<int>) {
    (s.hasLease, s.mySegments)
  }

  /** Writing a token to a channel when, and only when, something changed. */
  function Notify(tokens: nat, changed: bool): nat {
    if changed then tokens + 1 else tokens
  }

  // ---------------------------------------------------------------- getters

  /** `xs` enumerates the set `s`: each element exactly once, in some order. */
  predicate Enumerates(xs: seq<string>, s: set<string>) {
    && (forall i, j :: 0 <= i < j < |xs| ==> xs[i] != xs[j])
    && (forall x :: x in xs ==> x in s)
    && (forall x :: x in s ==> x in xs)
  }

  /**
   `GetKnownNodes`: a list copy of the membership set. The iteration order of the
   underlying hash set is unspecified, so every element is picked arbitrarily.
   */
  method GetKnownNodes(s: State) returns (nodes: seq<string>)
    ensures Enumerates(nodes, s.knownNodes)
    ensures |nodes| == |s.knownNodes|
  {
    nodes := [];
    var rest := s.knownNodes;
    while rest != {}
      invariant rest <= s.knownNodes
      invariant forall x :: x in nodes ==> x in s.knownNodes && x !in rest
      invariant forall x :: x in s.knownNodes ==> x in nodes || x in rest
      invariant forall i, j :: 0 <= i < j < |nodes| ==> nodes[i] != nodes[j]
      invariant |nodes| + |rest| == |s.knownNodes|
      decreases rest
    {
      var x :| x in rest;
      nodes := nodes + [x];
      rest := rest - {x};
    }
  }

  // -------------------------------------------------------- private setters

  /** `SetLeaseId`: stores the id and never notifies. */
  function SetLeaseId(s: State, value: int): (r: State)
    ensures r.leaseId == value
    ensures r.clusterChanged == s.clusterChanged
    ensures r.processingStateChanged == s.processingStateChanged
    ensures r.(leaseId := s.leaseId) == s
  {
    s.(leaseId := value)
  }

  /** `SetHasLease`: notifies the processing channel when the flag flips. */
  function SetHasLease(s: State, value: bool): (r: State)
    ensures r.hasLease == value
    ensures r.processingStateChanged == s.processingStateChanged + (if s.hasLease != value then 1 else 0)
    ensures r.(hasLease := s.hasLease, processingStateChanged := s.processingStateChanged) == s
  {
    var changed := s.hasLease != value;
    s.(hasLease := value, processingStateChanged := Notify(s.processingStateChanged, changed))
  }

  /** `SetIsLeader`: notifies the cluster channel when the flag flips. */
  function SetIsLeader(s: State, value: bool): (r: State)
    ensures r.isLeader == value
    ensures r.clusterChanged == s.clusterChanged + (if s.isLeader != value then 1 else 0)
    ensures r.(isLeader := s.isLeader, clusterChanged := s.clusterChanged) == s
  {
    var changed := s.isLeader != value;
    s.(isLeader := value, clusterChanged := Notify(s.clusterChanged, changed))
  }

  // ------------------------------------------------------- public mutators

  /** `SetupLease`: records the granted lease; only gaining a lease notifies. */
  function SetupLease(s: State, leaseId: int): (r: State)
    ensures r.leaseId == leaseId && r.hasLease
    ensures LeaseInvariant(r)
    ensures r.processingStateChanged == s.processingStateChanged + (if s.hasLease then 0 else 1)
    ensures r.(leaseId := s.leaseId, hasLease := s.hasLease,
               processingStateChanged := s.processingStateChanged) == s
  {
    SetHasLease(SetLeaseId(s, leaseId), true)
  }

  /** `ResetLease`: drops the lease and zeroes its id; only losing a held lease notifies. */
  function ResetLease(s: State): (r: State)
    ensures !r.hasLease && r.leaseId == 0
    ensures LeaseInvariant(r)
    ensures r.processingStateChanged == s.processingStateChanged + (if s.hasLease then 1 else 0)
    ensures r.(leaseId := s.leaseId, hasLease := s.hasLease,
               processingStateChanged := s.processingStateChanged) == s
  {
    SetLeaseId(SetHasLease(s, false), 0)
  }

  /** `BecomeLeader`: notifies the cluster channel only if not already leader. */
  function BecomeLeader(s: State): (r: State)
    ensures r.isLeader
    ensures r.clusterChanged == s.clusterChanged + (if s.isLeader then 0 else 1)
    ensures r.(isLeader := s.isLeader, clusterChanged := s.clusterChanged) == s
  {
    SetIsLeader(s, true)
  }

  /** `LoseLeadership`: notifies the cluster channel only if it was leader. */
  function LoseLeadership(s: State): (r: State)
    ensures !r.isLeader
    ensures r.clusterChanged == s.clusterChanged + (if s.isLeader then 1 else 0)
    ensures r.(isLeader := s.isLeader, clusterChanged := s.clusterChanged) == s
  {
    SetIsLeader(s, false)
  }

  /**
   `UpdateSegments`: replaces the local segment list; notifies the processing channel
   only if the old list differs element-wise from the new one.
   */
  function UpdateSegments(s: State, newSegments: seq<int>): (r: State)
    ensures r.mySegments == newSegments
    ensures r.processingStateChanged
         == s.processingStateChanged + (if s.mySegments == newSegments then 0 else 1)
    ensures r.(mySegments := s.mySegments, processingStateChanged := s.processingStateChanged) == s
  {
    var changed := s.mySegments != newSegments;
    if changed then
      s.(mySegments := newSegments, processingStateChanged := s.processingStateChanged + 1)
    else s
  }

  /** `ResetMySegments`: empties the local segment list, notifying only if it was non-empty. */
  function ResetMySegments(s: State): (r: State)
    ensures r.mySegments == []
    ensures r.processingStateChanged
         == s.processingStateChanged + (if |s.mySegments| == 0 then 0 else 1)
    ensures r.(mySegments := s.mySegments, processingStateChanged := s.processingStateChanged) == s
  {
    UpdateSegments(s, [])
  }

  /** `AddKnownNode`: adds to the membership; notifies only if the node was new. */
  function AddKnownNode(s: State, nodeId: string): (r: State)
    ensures r.knownNodes == s.knownNodes + {nodeId}
    ensures r.clusterChanged == s.clusterChanged + (if nodeId in s.knownNodes then 0 else 1)
    ensures r.(knownNodes := s.knownNodes, clusterChanged := s.clusterChanged) == s
  {
    var added := nodeId !in s.knownNodes;
    s.(knownNodes := s.knownNodes + {nodeId}, clusterChanged := Notify(s.clusterChanged, added))
  }

  /** `RemoveKnownNode`: removes from the membership; notifies only if the node was known. */
  function RemoveKnownNode(s: State, nodeId: string): (r: State)
    ensures r.knownNodes == s.knownNodes - {nodeId}
    ensures r.clusterChanged == s.clusterChanged + (if nodeId in s.knownNodes then 1 else 0)
    ensures nodeId !in s.knownNodes ==> r == s
    ensures r.(knownNodes := s.knownNodes, clusterChanged := s.clusterChanged) == s
  {
    var removed := nodeId in s.knownNodes;
    s.(knownNodes := s.knownNodes - {nodeId}, clusterChanged := Notify(s.clusterChanged, removed))
  }

  // ------------------------------------------------ the public interface as one step

  /** One call of a public mutator, with its argument. */
  datatype Command =
    | LeaseGranted(leaseId: int)          // SetupLease
    | LeaseCleared                        // ResetLease
    | LeadershipGained                    // BecomeLeader
    | LeadershipLost                      // LoseLeadership
    | SegmentsReplaced(segments: seq<int>) // UpdateSegments
    | SegmentsCleared                     // ResetMySegments
    | NodeJoined(id: string)              // AddKnownNode
    | NodeLeft(id: string)                // RemoveKnownNode

  /**
   Any public mutator. Each channel receives one token exactly when the view it
   announces really changed, and none otherwise; the node id never changes; the lease
   invariant is kept.
   */
  function Apply(s: State, c: Command): (r: State)
    ensures r.clusterChanged
         == s.clusterChanged + (if ClusterView(r) != ClusterView(s) then 1 else 0)
    ensures r.processingStateChanged
         == s.processingStateChanged + (if ProcessingView(r) != ProcessingView(s) then 1 else 0)
    ensures r.nodeId == s.nodeId
    ensures LeaseInvariant(s) ==> LeaseInvariant(r)
  {
    match c
    case LeaseGranted(id) => SetupLease(s, id)
    case LeaseCleared => ResetLease(s)
    case LeadershipGained => BecomeLeader(s)
    case LeadershipLost => LoseLeadership(s)
    case SegmentsReplaced(segments) => UpdateSegments(s, segments)
    case SegmentsCleared => ResetMySegments(s)
    case NodeJoined(id) =>
      assert (s.knownNodes + {id} == s.knownNodes) <==> id in s.knownNodes;
      AddKnownNode(s, id)
    case NodeLeft(id) =>
      assert (s.knownNodes - {id} == s.knownNodes) <==> id !in s.knownNodes;
      RemoveKnownNode(s, id)
  }

  /** A sequence of mutator calls, applied in order. */
  function Run(s: State, cs: seq<Command>): State
    decreases |cs|
  {
    if |cs| == 0 then s else Run(Apply(s, cs[0]), cs[1..])
  }

  /** Every public mutator is idempotent: repeating it changes nothing and notifies nobody. */
  lemma CommandIdempotent(s: State, c: Command)
    ensures Apply(Apply(s, c), c) == Apply(s, c)
  {
  }

  /** Adding a node that was not known and removing it again restores the membership. */
  lemma AddThenRemove(s: State, nodeId: string)
    requires nodeId !in s.knownNodes
    ensures RemoveKnownNode(AddKnownNode(s, nodeId), nodeId).knownNodes == s.knownNodes
    ensures RemoveKnownNode(AddKnownNode(s, nodeId), nodeId).clusterChanged == s.clusterChanged + 2
  {
  }

  /** From any state satisfying it, the lease invariant survives any sequence of mutator calls. */
  lemma {:induction false} RunKeepsLeaseInvariant(s: State, cs: seq<Command>)
    requires LeaseInvariant(s)
    ensures LeaseInvariant(Run(s, cs))
    ensures Run(s, cs).nodeId == s.nodeId
    decreases |cs|
  {
    if |cs| > 0 {
      RunKeepsLeaseInvariant(Apply(s, cs[0]), cs[1..]);
    }
  }

  /** In particular, from the freshly constructed state. */
  lemma LeaseInvariantFromInitial(nodeId: string, cs: seq<Command>)
    ensures LeaseInvariant(Run(Initial(nodeId), cs))
  {
    RunKeepsLeaseInvariant(Initial(nodeId), cs);
  }

  /**
   The private setter alone could break the invariant, which is why the public
   operations always pair it with the lease flag.
   */
  lemma BareLeaseIdBreaksInvariant(s: State)
    requires !s.hasLease
    ensures !LeaseInvariant(SetLeaseId(s, 7))
  {
  }
}
