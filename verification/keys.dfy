/**
 The etcd key layout shared by the lease manager, the watcher and the assignment
 manager: the per-node liveness keys under `cluster/lease/` and the single
 assignment key `cluster/segments`.
 */
module Keys {
  import opened Wrappers
  import opened Strings

  const ClusterPrefix: string := "cluster/"
  const AssignmentsKey: string := "cluster/segments"
  const ClusterLeasesKey: string := "cluster/lease"

  /** The liveness key a node writes under its lease: `cluster/lease/<nodeId>`. */
  function LeaseKey(nodeId: string): string {
    ClusterLeasesKey + "/" + nodeId
  }

  /**
   The node id the watcher reads off a liveness key: the third `/`-separated piece.
   `None` stands for the index-out-of-range exception of `Split("/")[2]` on a key
   with fewer than three pieces.
   */
  function NodeIdComponent(key: string): (id: Option<string>)
    ensures id.Some? <==> Occurrences(key, '/') >= 2
    ensures id.Some? ==> '/' !in id.value
  {
    var parts := Split(key, '/');
    if |parts| < 3 then None else Some(parts[2])
  }

  /** The pieces of a liveness key: `cluster`, `lease`, then the pieces of the node id. */
  lemma LeaseKeyPieces(nodeId: string)
    ensures Split(LeaseKey(nodeId), '/') == ["cluster", "lease"] + Split(nodeId, '/')
  {
    assert "cluster" + ['/'] + ("lease" + ['/'] + nodeId) == LeaseKey(nodeId);
    SplitAtFirstSeparator("cluster", '/', "lease" + ['/'] + nodeId);
    SplitAtFirstSeparator("lease", '/', nodeId);
  }

  /**
   A liveness key written for a node id without `/` is recognised by the watcher as a
   liveness key (not the assignment key), lies under the watched prefix, and yields
   that same node id back.
   */
  lemma LeaseKeyRoundTrip(nodeId: string)
    requires '/' !in nodeId
    ensures StartsWith(LeaseKey(nodeId), ClusterLeasesKey)
    ensures StartsWith(LeaseKey(nodeId), ClusterPrefix)
    ensures LeaseKey(nodeId) != AssignmentsKey
    ensures NodeIdComponent(LeaseKey(nodeId)) == Some(nodeId)
  {
    var key := LeaseKey(nodeId);
    assert key[..|ClusterLeasesKey|] == ClusterLeasesKey;
    assert key[..|ClusterPrefix|] == ClusterPrefix;
    assert key[8] == 'l';
    LeaseKeyPieces(nodeId);
    SplitWithoutSeparator(nodeId, '/');
  }

  /** The assignment key is not mistaken for a liveness key and lies under the watched prefix. */
  lemma AssignmentsKeyShape()
    ensures !StartsWith(AssignmentsKey, ClusterLeasesKey)
    ensures StartsWith(AssignmentsKey, ClusterPrefix)
  {
    assert AssignmentsKey[8] != ClusterLeasesKey[8];
    assert AssignmentsKey[..|ClusterPrefix|] == ClusterPrefix;
  }

  /** A node id `a/b` (with `a` free of `/`) is read back from its liveness key as just `a`. */
  lemma SlashInNodeIdIsTruncated(a: string, b: string)
    requires '/' !in a
    ensures NodeIdComponent(LeaseKey(a + "/" + b)) == Some(a)
  {
    LeaseKeyPieces(a + "/" + b);
    SplitAtFirstSeparator(a, '/', b);
  }
}
