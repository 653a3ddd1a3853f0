/**
 How the pieces fit together on the node level: the leader's publication, delivered
 by the watch to any lease-holding member, hands that member exactly its contiguous
 block; and every node-local history of mutator calls and watch responses keeps the
 lease invariant.
 */
module Composition {
  import opened Wrappers
  import opened Strings
  import opened Keys
  import opened ClusterState
  import opened SegmentDistributor
  import opened WatchService
  import opened AssignmentManager

  /**
   For any enumeration order of the leader's membership: a member holding a lease that
   receives the put of the leader's publication is left with one contiguous block, the
   block of its position in that order; and the published lists together partition
   `[0, totalSegments)`.
   */
  lemma MemberReceivesOwnBlock(leader: State, totalSegments: int, nodes: seq<string>, pub: Publication,
                               member: State, payload: string, decode: string -> Decoded)
    requires Enumerates(nodes, leader.knownNodes)
    requires OnClusterChanged(leader, totalSegments, nodes) == Some(pub)
    requires totalSegments > 0
    requires member.hasLease && member.nodeId in leader.knownNodes
    requires !IsBlank(payload) && decode(payload) == Parsed(pub.assignment)
    ensures var r := HandleSingleEvent(member, Event(Put, pub.key, payload), decode);
      && r.Done?
      && (exists i :: 0 <= i < |nodes| && nodes[i] == member.nodeId
            && r.state.mySegments == Range(Start(totalSegments, |nodes|, i), Share(totalSegments, |nodes|, i)))
    ensures Partitions(pub.assignment, totalSegments)
  {
    var i :| 0 <= i < |nodes| && nodes[i] == member.nodeId;
    assert pub.assignment == DistributeEvenly(nodes, totalSegments);
    assert Distinct(nodes);
    DistributionIsPartition(nodes, totalSegments);
    var r := HandleSingleEvent(member, Event(Put, pub.key, payload), decode);
    assert r.state.mySegments == pub.assignment[member.nodeId];
  }

  /** A lease-holding node the leader does not know of is left with no segments. */
  lemma StrangerReceivesNothing(leader: State, totalSegments: int, nodes: seq<string>, pub: Publication,
                                stranger: State, payload: string, decode: string -> Decoded)
    requires Enumerates(nodes, leader.knownNodes)
    requires OnClusterChanged(leader, totalSegments, nodes) == Some(pub)
    requires stranger.hasLease && stranger.nodeId !in leader.knownNodes
    requires !IsBlank(payload) && decode(payload) == Parsed(pub.assignment)
    ensures var r := HandleSingleEvent(stranger, Event(Put, pub.key, payload), decode);
      r.Done? && r.state.mySegments == []
  {
  }

  /** One thing that can happen to the node-local state. */
  datatype Step =
    | Local(command: Command)          // a mutator called by the lease, election or watch services
    | Watched(response: WatchResponse) // a watch response handled by the watcher

  function StepState(s: State, step: Step, decode: string -> Decoded): State {
    match step
    case Local(c) => Apply(s, c)
    case Watched(resp) => HandleClusterEvent(s, resp, decode).state
  }

  function History(s: State, steps: seq<Step>, decode: string -> Decoded): State
    decreases |steps|
  {
    if |steps| == 0 then s else History(StepState(s, steps[0], decode), steps[1..], decode)
  }

  /**
   From the freshly constructed state, any interleaving of mutator calls and watch
   responses (including ones that threw) keeps `!hasLease ==> leaseId == 0`.
   */
  lemma {:induction false} HistoryKeepsLeaseInvariant(s: State, steps: seq<Step>, decode: string -> Decoded)
    requires LeaseInvariant(s)
    ensures LeaseInvariant(History(s, steps, decode))
    ensures History(s, steps, decode).nodeId == s.nodeId
    decreases |steps|
  {
    if |steps| > 0 {
      HistoryKeepsLeaseInvariant(StepState(s, steps[0], decode), steps[1..], decode);
    }
  }

  lemma InitialHistoryKeepsLeaseInvariant(nodeId: string, steps: seq<Step>, decode: string -> Decoded)
    ensures LeaseInvariant(History(Initial(nodeId), steps, decode))
  {
    HistoryKeepsLeaseInvariant(Initial(nodeId), steps, decode);
  }
}
