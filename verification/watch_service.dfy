/**
 `WatchService`: the handler of the single watch on the `cluster/` prefix. Each watch
 response is a batch of put/delete events, applied in arrival order to the node's
 `ClusterState`. Liveness-key events maintain the membership; assignment-key events
 maintain this node's local segment list, but only while it holds a lease.

 JSON decoding is a parameter `decode`. Two things in the handler throw instead of
 returning: `Split("/")[2]` on a liveness key with fewer than three pieces, and the
 deserializer on a payload that is not JSON. Neither is caught, so the exception leaves
 the handler with the state as mutated by the earlier events of the same response:
 that is `Threw(state, fault)`.
 */
module WatchService {
  import opened Wrappers
  import opened Strings
  import opened Keys
  import opened ClusterState

  datatype EventType = Put | Delete

  /** One watch event: its type, the key (UTF-8 decoded) and the value (UTF-8 decoded). */
  datatype Event = Event(kind: EventType, key: string, value: string)

  datatype WatchResponse = WatchResponse(events: seq<Event>)

  /**
   The three outcomes of `JsonSerializer.Deserialize<Dictionary<string, List<int>>>`:
   a dictionary, `null` (the JSON literal `null`), or an exception for malformed input.
   */
  datatype Decoded = Parsed(assignments: map<string, seq<int>>) | JsonNull | Malformed

  /** The exceptions that escape the handler. */
  datatype Fault =
    | LeaseKeyTooShort   // IndexOutOfRangeException from Split("/")[2]
    | PayloadNotJson     // JsonException from the deserializer

  /** Outcome of handling events: completed, or an exception after reaching `state`. */
  datatype Dispatch = Done(state: State) | Threw(state: State, fault: Fault)

  /** The fields only the lease manager and the election service write. */
  predicate SameLeaseAndLeadership(s: State, r: State) {
    && r.nodeId == s.nodeId
    && r.leaseId == s.leaseId
    && r.hasLease == s.hasLease
    && r.isLeader == s.isLeader
  }

  /** `ExtractMySegments`: this node's entry of the published assignment, or the empty list. */
  function ExtractMySegments(s: State, assignments: map<string, seq<int>>): (segments: seq<int>)
    ensures s.nodeId in assignments ==> segments == assignments[s.nodeId]
    ensures s.nodeId !in assignments ==> segments == []
  {
    if s.nodeId in assignments then assignments[s.nodeId] else []
  }

  /**
   `ProcessAssignments`: a blank payload or a `null` document leaves the state as it is,
   a malformed one throws, and a dictionary replaces the local segments by this node's
   entry (empty when absent). Only the local segments and their channel are touched.
   */
  function ProcessAssignments(s: State, json: string, decode: string -> Decoded): (r: Dispatch)
    ensures IsBlank(json) ==> r == Done(s)
    ensures !IsBlank(json) && decode(json) == JsonNull ==> r == Done(s)
    ensures !IsBlank(json) && decode(json) == Malformed ==> r == Threw(s, PayloadNotJson)
    ensures !IsBlank(json) && decode(json).Parsed? ==>
      && r.Done?
      && r.state.mySegments == (if s.nodeId in decode(json).assignments
                                then decode(json).assignments[s.nodeId] else [])
    ensures r.state.processingStateChanged
         == s.processingStateChanged + (if r.state.mySegments != s.mySegments then 1 else 0)
    ensures r.state.(mySegments := s.mySegments,
                     processingStateChanged := s.processingStateChanged) == s
  {
    if IsBlank(json) then Done(s)
    else
      match decode(json)
      case Malformed => Threw(s, PayloadNotJson)
      case JsonNull => Done(s)
      case Parsed(assignments) => Done(UpdateSegments(s, ExtractMySegments(s, assignments)))
  }

  /**
   `HandleAssignmentsEvent`: a node without a lease ignores every assignment event;
   with a lease, a delete empties the local segments and a put is processed.
   */
  function HandleAssignmentsEvent(s: State, e: Event, decode: string -> Decoded): (r: Dispatch)
    ensures !s.hasLease ==> r == Done(s)
    ensures s.hasLease && e.kind == Delete ==> r.Done? && r.state.mySegments == []
    ensures s.hasLease && e.kind == Put ==> r == ProcessAssignments(s, e.value, decode)
    ensures r.state.processingStateChanged
         == s.processingStateChanged + (if r.state.mySegments != s.mySegments then 1 else 0)
    ensures r.state.(mySegments := s.mySegments,
                     processingStateChanged := s.processingStateChanged) == s
  {
    if !s.hasLease then Done(s)
    else if e.kind == Delete then Done(ResetMySegments(s))
    else ProcessAssignments(s, e.value, decode)
  }

  /**
   `HandleLeaseEvent`: the third `/`-separated piece of the key is a node id; a put
   adds it to the membership and a delete removes it. A key with fewer pieces throws.
   */
  function HandleLeaseEvent(s: State, e: Event): (r: Dispatch)
    ensures NodeIdComponent(e.key).None? ==> r == Threw(s, LeaseKeyTooShort)
    ensures NodeIdComponent(e.key).Some? && e.kind == Put ==>
      r.Done? && r.state.knownNodes == s.knownNodes + {NodeIdComponent(e.key).value}
    ensures NodeIdComponent(e.key).Some? && e.kind == Delete ==>
      r.Done? && r.state.knownNodes == s.knownNodes - {NodeIdComponent(e.key).value}
    ensures r.state.clusterChanged
         == s.clusterChanged + (if r.state.knownNodes != s.knownNodes then 1 else 0)
    ensures r.state.(knownNodes := s.knownNodes, clusterChanged := s.clusterChanged) == s
  {
    match NodeIdComponent(e.key)
    case None => Threw(s, LeaseKeyTooShort)
    case Some(id) =>
      match e.kind
      case Put => Done(AddKnownNode(s, id))
      case Delete => Done(RemoveKnownNode(s, id))
  }

  /**
   `HandleSingleEvent`: routes by key shape. A key starting with `cluster/lease` is a
   liveness event, the key `cluster/segments` an assignment event, and any other key is
   ignored. Lease and leadership are never touched.
   */
  function HandleSingleEvent(s: State, e: Event, decode: string -> Decoded): (r: Dispatch)
    ensures StartsWith(e.key, ClusterLeasesKey) ==> r == HandleLeaseEvent(s, e)
    ensures e.key == AssignmentsKey ==> r == HandleAssignmentsEvent(s, e, decode)
    ensures !StartsWith(e.key, ClusterLeasesKey) && e.key != AssignmentsKey ==> r == Done(s)
    ensures SameLeaseAndLeadership(s, r.state)
    ensures !s.hasLease ==> r.state.mySegments == s.mySegments
    ensures r.state.clusterChanged
         == s.clusterChanged + (if r.state.knownNodes != s.knownNodes then 1 else 0)
    ensures r.state.processingStateChanged
         == s.processingStateChanged + (if r.state.mySegments != s.mySegments then 1 else 0)
  {
    AssignmentsKeyShape();
    if StartsWith(e.key, ClusterLeasesKey) then HandleLeaseEvent(s, e)
    else if e.key == AssignmentsKey then HandleAssignmentsEvent(s, e, decode)
    else Done(s)
  }

  /**
   The `foreach` over the events of one response: left to right, each event seeing the
   state the previous one left; an exception ends the batch.
   */
  function HandleEvents(s: State, events: seq<Event>, decode: string -> Decoded): (r: Dispatch)
    ensures SameLeaseAndLeadership(s, r.state)
    ensures !s.hasLease ==> r.state.mySegments == s.mySegments
    ensures r.state.clusterChanged >= s.clusterChanged
    ensures r.state.processingStateChanged >= s.processingStateChanged
    decreases |events|
  {
    if |events| == 0 then Done(s)
    else
      var first := HandleSingleEvent(s, events[0], decode);
      if first.Threw? then first
      else HandleEvents(first.state, events[1..], decode)
  }

  /** `HandleClusterEvent`: an empty response is a no-op; otherwise its events are folded in order. */
  function HandleClusterEvent(s: State, response: WatchResponse, decode: string -> Decoded): (r: Dispatch)
    ensures |response.events| == 0 ==> r == Done(s)
    ensures r == HandleEvents(s, response.events, decode)
  {
    if |response.events| == 0 then Done(s)
    else HandleEvents(s, response.events, decode)
  }

  /** Handling two batches one after the other is handling their concatenation. */
  lemma {:induction false} HandleEventsAppend(s: State, a: seq<Event>, b: seq<Event>,
                                              decode: string -> Decoded)
    ensures var first := HandleEvents(s, a, decode);
      HandleEvents(s, a + b, decode)
        == if first.Threw? then first else HandleEvents(first.state, b, decode)
    decreases |a|
  {
    if |a| == 0 {
      assert a + b == b;
    } else {
      assert (a + b)[0] == a[0];
      assert (a + b)[1..] == a[1..] + b;
      var t := HandleSingleEvent(s, a[0], decode);
      if t.Done? {
        HandleEventsAppend(t.state, a[1..], b, decode);
      }
    }
  }

  /** An event the handler can process without throwing. */
  predicate Handleable(e: Event, decode: string -> Decoded) {
    && (StartsWith(e.key, ClusterLeasesKey) ==> NodeIdComponent(e.key).Some?)
    && (e.key == AssignmentsKey && e.kind == Put && !IsBlank(e.value) ==> decode(e.value) != Malformed)
  }

  /** A batch of handleable events is handled to completion. */
  lemma {:induction false} HandleableEventsComplete(s: State, events: seq<Event>,
                                                    decode: string -> Decoded)
    requires forall i :: 0 <= i < |events| ==> Handleable(events[i], decode)
    ensures HandleEvents(s, events, decode).Done?
    decreases |events|
  {
    if |events| > 0 {
      AssignmentsKeyShape();
      var t := HandleSingleEvent(s, events[0], decode);
      assert t.Done?;
      HandleableEventsComplete(t.state, events[1..], decode);
    }
  }

  /**
   The liveness key the lease manager writes for a node id without `/`: a put makes the
   node known and a delete forgets it, through the membership mutators.
   */
  lemma LivenessKeyEvents(s: State, nodeId: string, value: string, decode: string -> Decoded)
    requires '/' !in nodeId
    ensures HandleSingleEvent(s, Event(Put, LeaseKey(nodeId), value), decode)
         == Done(AddKnownNode(s, nodeId))
    ensures HandleSingleEvent(s, Event(Delete, LeaseKey(nodeId), value), decode)
         == Done(RemoveKnownNode(s, nodeId))
  {
    LeaseKeyRoundTrip(nodeId);
  }

  /**
   A delete of a known node's liveness key shrinks the membership by exactly that node
   and writes one token to the cluster channel.
   */
  lemma KnownNodeLeaves(s: State, nodeId: string, decode: string -> Decoded)
    requires '/' !in nodeId && nodeId in s.knownNodes
    ensures var r := HandleSingleEvent(s, Event(Delete, LeaseKey(nodeId), ""), decode);
      && r.Done?
      && r.state.knownNodes == s.knownNodes - {nodeId}
      && |r.state.knownNodes| == |s.knownNodes| - 1
      && r.state.clusterChanged == s.clusterChanged + 1
  {
    LivenessKeyEvents(s, nodeId, "", decode);
  }

  /** Without a lease, no response of any kind changes the local segment list. */
  lemma NoLeaseKeepsSegments(s: State, response: WatchResponse, decode: string -> Decoded)
    requires !s.hasLease
    ensures HandleClusterEvent(s, response, decode).state.mySegments == s.mySegments
  {
  }
}
