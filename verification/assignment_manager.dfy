/**
 `AssignmentManagerService`: on every token of the cluster-changed channel, a leader
 recomputes the global assignment from its current membership and writes it to the
 single key `cluster/segments`, scoped to its own lease; a follower does nothing.

 The membership list is the hash-set enumeration returned by `GetKnownNodes`, so its
 order is a parameter constrained only by `Enumerates`. Serialisation to JSON is not
 modelled: a publication carries the assignment itself. The etcd put is an outcome
 parameter; the store is a map from key to the written entry.
 */
module AssignmentManager {
  import opened Wrappers
  import opened Keys
  import opened ClusterState
  import opened SegmentDistributor

  /** The put request `RefreshAssignmentsAsync` builds: key, assignment, lease. */
  datatype Publication = Publication(key: string, assignment: map<string, seq<int>>, leaseId: int)

  /**
   `RefreshAssignmentsAsync` up to the put: nothing for an empty membership; otherwise
   the contiguous-block distribution over the listed nodes, under the assignment key and
   the current lease id.
   */
  function RefreshAssignments(s: State, totalSegments: int, nodes: seq<string>): (p: Option<Publication>)
    requires Enumerates(nodes, s.knownNodes)
    ensures p.None? <==> s.knownNodes == {}
    ensures p.Some? ==> p.value.key == AssignmentsKey && p.value.leaseId == s.leaseId
    ensures p.Some? && totalSegments <= 0 ==> p.value.assignment == map[]
    ensures p.Some? && totalSegments > 0 ==> p.value.assignment.Keys == s.knownNodes
    ensures p.Some? && totalSegments > 0 ==>
      forall i :: 0 <= i < |nodes| ==>
        p.value.assignment[nodes[i]] == Block(totalSegments, |nodes|, i)
  {
    if |nodes| == 0 then None
    else
      assert nodes[0] in s.knownNodes;
      var assignment := DistributeEvenly(nodes, totalSegments);
      assert totalSegments > 0 ==> forall i :: 0 <= i < |nodes| ==> LastOccurrence(nodes, i);
      Some(Publication(AssignmentsKey, assignment, s.leaseId))
  }

  /**
   The body of the `await foreach` loop for one token: a follower publishes nothing;
   a leader publishes exactly when its membership is non-empty.
   */
  function OnClusterChanged(s: State, totalSegments: int, nodes: seq<string>): (p: Option<Publication>)
    requires Enumerates(nodes, s.knownNodes)
    ensures !s.isLeader ==> p.None?
    ensures p.Some? <==> s.isLeader && s.knownNodes != {}
    ensures s.isLeader ==> p == RefreshAssignments(s, totalSegments, nodes)
  {
    if !s.isLeader then None else RefreshAssignments(s, totalSegments, nodes)
  }

  /**
   A leader whose lease has lapsed before the election loop clears its flag still
   publishes, with lease id 0: an etcd put with lease 0 is not bound to any lease.
   Such a state is reachable through the public mutators.
   */
  lemma LapsedLeaderPublishesUnleased(s: State, totalSegments: int, nodes: seq<string>)
    requires Enumerates(nodes, s.knownNodes)
    requires LeaseInvariant(s) && s.isLeader && !s.hasLease && s.knownNodes != {}
    ensures OnClusterChanged(s, totalSegments, nodes).Some?
    ensures OnClusterChanged(s, totalSegments, nodes).value.leaseId == 0
  {
  }

  lemma LapsedLeaderIsReachable(nodeId: string)
    ensures var s := Run(Initial(nodeId), [NodeJoined(nodeId), LeaseGranted(7), LeadershipGained, LeaseCleared]);
      s.isLeader && !s.hasLease && s.leaseId == 0 && s.knownNodes == {nodeId}
  {
    var s0 := Initial(nodeId);
    var cs := [NodeJoined(nodeId), LeaseGranted(7), LeadershipGained, LeaseCleared];
    var s1 := AddKnownNode(s0, nodeId);
    var s2 := SetupLease(s1, 7);
    var s3 := BecomeLeader(s2);
    var s4 := ResetLease(s3);
    assert Run(s0, cs) == Run(s1, cs[1..]);
    assert Run(s1, cs[1..]) == Run(s2, cs[2..]);
    assert Run(s2, cs[2..]) == Run(s3, cs[3..]);
    assert Run(s3, cs[3..]) == Run(s4, cs[4..]);
    assert cs[4..] == [];
  }

  // ------------------------------------------------------- the put and its outcome

  /** An entry of the coordination store: the assignment and the lease it is bound to. */
  datatype Entry = Entry(assignment: map<string, seq<int>>, leaseId: int)

  type Store = map<string, Entry>

  /**
   What one token sees: the state snapshot, the enumeration `GetKnownNodes` returned,
   and whether the put (if any) reached the store.
   */
  datatype Wakeup = Wakeup(state: State, nodes: seq<string>, putSucceeded: bool)

  predicate WellFormed(w: Wakeup) {
    Enumerates(w.nodes, w.state.knownNodes)
  }

  /**
   One token end to end. A failed put is logged and swallowed: the store is as before
   and nothing is kept for a retry. A successful put replaces the assignment entry and
   nothing else.
   */
  function HandleToken(store: Store, totalSegments: int, w: Wakeup): (r: Store)
    requires WellFormed(w)
    ensures !w.putSucceeded || !w.state.isLeader || w.state.knownNodes == {} ==> r == store
    ensures w.putSucceeded && w.state.isLeader && w.state.knownNodes != {} ==>
      && r.Keys == store.Keys + {AssignmentsKey}
      && r[AssignmentsKey] == Entry(DistributeEvenly(w.nodes, totalSegments), w.state.leaseId)
      && (forall k :: k in store && k != AssignmentsKey ==> r[k] == store[k])
  {
    match OnClusterChanged(w.state, totalSegments, w.nodes)
    case None => store
    case Some(p) =>
      if w.putSucceeded then store[p.key := Entry(p.assignment, p.leaseId)] else store
  }

  /** The loop over the cluster-changed channel: the tokens in the order they are read. */
  function DrainTokens(store: Store, totalSegments: int, ws: seq<Wakeup>): (r: Store)
    requires forall i :: 0 <= i < |ws| ==> WellFormed(ws[i])
    ensures r.Keys <= store.Keys + {AssignmentsKey}
    ensures forall k :: k in store && k != AssignmentsKey ==> k in r && r[k] == store[k]
    decreases |ws|
  {
    if |ws| == 0 then store
    else DrainTokens(HandleToken(store, totalSegments, ws[0]), totalSegments, ws[1..])
  }

  lemma {:induction false} DrainTokensAppend(store: Store, totalSegments: int, a: seq<Wakeup>, b: seq<Wakeup>)
    requires forall i :: 0 <= i < |a| ==> WellFormed(a[i])
    requires forall i :: 0 <= i < |b| ==> WellFormed(b[i])
    ensures forall i :: 0 <= i < |a + b| ==> WellFormed((a + b)[i])
    ensures DrainTokens(store, totalSegments, a + b)
         == DrainTokens(DrainTokens(store, totalSegments, a), totalSegments, b)
    decreases |a|
  {
    assert forall i :: 0 <= i < |a + b| ==> WellFormed((a + b)[i]) by {
      forall i | 0 <= i < |a + b| ensures WellFormed((a + b)[i]) {
        if i < |a| { assert (a + b)[i] == a[i]; } else { assert (a + b)[i] == b[i - |a|]; }
      }
    }
    if |a| == 0 {
      assert a + b == b;
    } else {
      assert (a + b)[0] == a[0];
      assert (a + b)[1..] == a[1..] + b;
      DrainTokensAppend(HandleToken(store, totalSegments, a[0]), totalSegments, a[1..], b);
    }
  }

  /**
   No retry: a token whose put failed leaves no trace, so the run is the same as if that
   token had never been read.
   */
  lemma FailedPutLeavesNoTrace(store: Store, totalSegments: int, before: seq<Wakeup>, w: Wakeup, after: seq<Wakeup>)
    requires forall i :: 0 <= i < |before| ==> WellFormed(before[i])
    requires forall i :: 0 <= i < |after| ==> WellFormed(after[i])
    requires WellFormed(w) && !w.putSucceeded
    ensures forall i :: 0 <= i < |before + [w] + after| ==> WellFormed((before + [w] + after)[i])
    ensures forall i :: 0 <= i < |before + after| ==> WellFormed((before + after)[i])
    ensures DrainTokens(store, totalSegments, before + [w] + after)
         == DrainTokens(store, totalSegments, before + after)
  {
    var mid := DrainTokens(store, totalSegments, before);
    DrainTokensAppend(store, totalSegments, before, [w] + after);
    DrainTokensAppend(store, totalSegments, before, after);
    assert ([w] + after)[0] == w && ([w] + after)[1..] == after;
    assert DrainTokens(mid, totalSegments, [w] + after) == DrainTokens(mid, totalSegments, after);
    assert before + [w] + after == before + ([w] + after);
  }

  /** A run in which this node never leads leaves the store untouched. */
  lemma {:induction false} FollowerNeverPublishes(store: Store, totalSegments: int, ws: seq<Wakeup>)
    requires forall i :: 0 <= i < |ws| ==> WellFormed(ws[i]) && !ws[i].state.isLeader
    ensures DrainTokens(store, totalSegments, ws) == store
    decreases |ws|
  {
    if |ws| > 0 {
      FollowerNeverPublishes(store, totalSegments, ws[1..]);
    }
  }
}
