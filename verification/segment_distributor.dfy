/**
 `SegmentDistributor.DistributeEvenly`: partitions the segment ids `[0, total)` over an
 ordered node list into consecutive blocks, the first `total % n` nodes receiving one
 segment more than the rest.

 The loop of the source is `Assign` (one call per iteration, carrying `i`,
 `currentSegment` and the result dictionary). The closed forms `Share` and `Start`
 are the independent reference against which it is proved.
 */
module SegmentDistributor {

  /** `Enumerable.Range(start, count)`: `count` consecutive integers from `start`. */
  function Range(start: int, count: nat): (r: seq<int>)
    ensures |r| == count
    ensures forall k :: 0 <= k < count ==> r[k] == start + k
  {
    seq(count, k => start + k)
  }

  function Min(a: int, b: int): int {
    if a <= b then a else b
  }

  /** Number of segments the node at position `i` of `n` nodes receives. */
  function Share(total: nat, n: nat, i: nat): nat
    requires n > 0
  {
    total / n + (if i < total % n then 1 else 0)
  }

  /** First segment id of the block of the node at position `i`. */
  function Start(total: nat, n: nat, i: nat): nat
    requires n > 0
  {
    i * (total / n) + Min(i, total % n)
  }

  /** The block of the node at position `i`. */
  function Block(total: nat, n: nat, i: nat): seq<int>
    requires n > 0
  {
    Range(Start(total, n, i), Share(total, n, i))
  }

  /** No position in `j+1 .. i-1` repeats the name at position `j`. */
  predicate LastBefore(nodes: seq<string>, j: nat, i: nat)
    requires j < i <= |nodes|
  {
    forall k :: j < k < i ==> nodes[k] != nodes[j]
  }

  /** No later position of `nodes` repeats the name at position `j`: its entry is not overwritten. */
  predicate LastOccurrence(nodes: seq<string>, j: nat)
    requires j < |nodes|
  {
    LastBefore(nodes, j, |nodes|)
  }

  /**
   What the first `i` iterations of the loop have built: the names of positions
   `0 .. i-1` are the keys, and a name maps to the block of its latest position.
   */
  ghost predicate AssignedUpTo(nodes: seq<string>, total: nat, i: nat, acc: map<string, seq<int>>)
    requires 0 < |nodes| && i <= |nodes|
  {
    && (forall x :: x in acc <==> x in nodes[..i])
    && (forall j {:trigger LastBefore(nodes, j, i)} :: 0 <= j < i && LastBefore(nodes, j, i) ==>
          nodes[j] in acc && acc[nodes[j]] == Block(total, |nodes|, j))
  }

  predicate Distinct(nodes: seq<string>) {
    forall i, j :: 0 <= i < j < |nodes| ==> nodes[i] != nodes[j]
  }

  /**
   The partition of `[0, totalSegments)` over `nodes`. When a name occurs twice,
   the dictionary keeps the block of its last occurrence, as `result[node] = ...`
   overwrites.
   */
  function DistributeEvenly(nodes: seq<string>, totalSegments: int): (r: map<string, seq<int>>)
    ensures |nodes| == 0 || totalSegments <= 0 ==> r == map[]
    ensures totalSegments > 0 ==> forall x :: x in r <==> x in nodes
    ensures totalSegments > 0 ==>
      forall j :: 0 <= j < |nodes| && LastOccurrence(nodes, j) ==>
        nodes[j] in r && r[nodes[j]] == Block(totalSegments, |nodes|, j)
  {
    if |nodes| == 0 || totalSegments <= 0 then map[]
    else
      var n := |nodes|;
      var r := Assign(nodes, totalSegments / n, totalSegments % n, 0, 0, map[]);
      AssignCorrect(nodes, totalSegments, totalSegments / n, totalSegments % n, 0, 0, map[]);
      assert nodes[..n] == nodes;
      r
  }

  /**
   Iterations `i .. n-1` of the distribution loop, entered with `currentSegment` and the
   dictionary built by iterations `0 .. i-1`.
   */
  function Assign(nodes: seq<string>, baseCount: nat, remainder: nat,
                  i: nat, currentSegment: nat, acc: map<string, seq<int>>): map<string, seq<int>>
    requires i <= |nodes|
    decreases |nodes| - i
  {
    if i == |nodes| then acc
    else
      var countForNode := baseCount + (if i < remainder then 1 else 0);
      var segments := Range(currentSegment, countForNode);
      Assign(nodes, baseCount, remainder, i + 1, currentSegment + countForNode,
             acc[nodes[i] := segments])
  }

  /**
   The loop invariant: entered in the state the first `i` iterations leave, the
   remaining iterations complete the partition.
   */
  lemma {:induction false} AssignCorrect(nodes: seq<string>, total: nat, baseCount: nat, remainder: nat,
                                         i: nat, currentSegment: nat, acc: map<string, seq<int>>)
    requires |nodes| > 0 && baseCount == total / |nodes| && remainder == total % |nodes|
    requires i <= |nodes| && currentSegment == Start(total, |nodes|, i)
    requires AssignedUpTo(nodes, total, i, acc)
    ensures AssignedUpTo(nodes, total, |nodes|, Assign(nodes, baseCount, remainder, i, currentSegment, acc))
    decreases |nodes| - i
  {
    if i < |nodes| {
      var countForNode := baseCount + (if i < remainder then 1 else 0);
      var acc' := acc[nodes[i] := Range(currentSegment, countForNode)];
      assert Assign(nodes, baseCount, remainder, i, currentSegment, acc)
          == Assign(nodes, baseCount, remainder, i + 1, currentSegment + countForNode, acc');
      AssignStep(nodes, total, baseCount, remainder, i, currentSegment, acc);
      AssignCorrect(nodes, total, baseCount, remainder, i + 1, currentSegment + countForNode, acc');
    }
  }

  /**
   One loop iteration: the block of position `i` is the `countForNode` ids from
   `currentSegment`, and adding it extends what has been built.
   */
  lemma AssignStep(nodes: seq<string>, total: nat, baseCount: nat, remainder: nat,
                   i: nat, currentSegment: nat, acc: map<string, seq<int>>)
    requires |nodes| > 0 && baseCount == total / |nodes| && remainder == total % |nodes|
    requires i < |nodes| && currentSegment == Start(total, |nodes|, i)
    requires AssignedUpTo(nodes, total, i, acc)
    ensures var countForNode := baseCount + (if i < remainder then 1 else 0);
      && currentSegment + countForNode == Start(total, |nodes|, i + 1)
      && AssignedUpTo(nodes, total, i + 1, acc[nodes[i] := Range(currentSegment, countForNode)])
  {
    StartStep(total, |nodes|, i);
    assert Range(currentSegment, baseCount + (if i < remainder then 1 else 0)) == Block(total, |nodes|, i);
    AssignExtends(nodes, total, i, acc);
  }

  /** Adding the block of position `i` extends what the first `i` iterations built. */
  lemma AssignExtends(nodes: seq<string>, total: nat, i: nat, acc: map<string, seq<int>>)
    requires 0 < |nodes| && i < |nodes|
    requires AssignedUpTo(nodes, total, i, acc)
    ensures AssignedUpTo(nodes, total, i + 1, acc[nodes[i] := Block(total, |nodes|, i)])
  {
    var acc' := acc[nodes[i] := Block(total, |nodes|, i)];
    assert nodes[..i + 1] == nodes[..i] + [nodes[i]];
    forall j | 0 <= j < i + 1 && LastBefore(nodes, j, i + 1)
      ensures nodes[j] in acc' && acc'[nodes[j]] == Block(total, |nodes|, j)
    {
      if j < i {
        assert LastBefore(nodes, j, i);
      }
    }
  }

  /** Consecutive blocks: each block starts where the previous one ended. */
  lemma StartStep(total: nat, n: nat, i: nat)
    requires n > 0
    ensures Start(total, n, i + 1) == Start(total, n, i) + Share(total, n, i)
  {
    assert (i + 1) * (total / n) == i * (total / n) + total / n;
  }

  /** The last block ends exactly at `total`. */
  lemma StartAtEnd(total: nat, n: nat)
    requires n > 0
    ensures Start(total, n, n) == total
  {
    assert total % n < n;
    assert n * (total / n) + total % n == total;
  }

  /** Blocks never shrink towards the front: start positions are monotone. */
  lemma {:induction false} StartMonotone(total: nat, n: nat, i: nat, j: nat)
    requires n > 0 && i <= j
    ensures Start(total, n, i) <= Start(total, n, j)
    decreases j - i
  {
    if i < j {
      StartStep(total, n, i);
      StartMonotone(total, n, i + 1, j);
    }
  }

  /**
   Balance: every share is `total / n` or one more, the larger shares come first,
   so any two shares differ by at most one.
   */
  lemma SharesBalanced(total: nat, n: nat, i: nat, j: nat)
    requires n > 0 && i < n && j < n
    ensures total / n <= Share(total, n, i) <= total / n + 1
    ensures i <= j ==> Share(total, n, j) <= Share(total, n, i)
    ensures Share(total, n, i) - Share(total, n, j) <= 1
    ensures Share(total, n, i) == total / n + 1 <==> i < total % n
  {
  }

  /** The concatenation of the blocks of positions `0 .. k-1`. */
  function Blocks(total: nat, n: nat, k: nat): seq<int>
    requires n > 0
  {
    if k == 0 then [] else Blocks(total, n, k - 1) + Block(total, n, k - 1)
  }

  /** The first `k` blocks laid end to end are exactly the ids `0 .. Start(k)-1`. */
  lemma {:induction false} BlocksAreRange(total: nat, n: nat, k: nat)
    requires n > 0
    ensures Blocks(total, n, k) == Range(0, Start(total, n, k))
  {
    if k > 0 {
      BlocksAreRange(total, n, k - 1);
      StartStep(total, n, k - 1);
    }
  }

  /** The blocks of `nodes`, read off the result in node order. */
  function ListsInOrder(r: map<string, seq<int>>, nodes: seq<string>): seq<int>
    requires forall x :: x in nodes ==> x in r
  {
    if |nodes| == 0 then []
    else ListsInOrder(r, nodes[..|nodes| - 1]) + r[nodes[|nodes| - 1]]
  }

  /**
   Coverage without overlap, as a sequence: for distinct node names, the lists of the
   result concatenated in node order are exactly `[0, 1, ..., total-1]`.
   */
  lemma DistributionConcatenatesToRange(nodes: seq<string>, total: int)
    requires Distinct(nodes) && |nodes| > 0 && total > 0
    ensures forall x :: x in nodes ==> x in DistributeEvenly(nodes, total)
    ensures ListsInOrder(DistributeEvenly(nodes, total), nodes) == Range(0, total)
  {
    var r := DistributeEvenly(nodes, total);
    var n := |nodes|;
    forall j | 0 <= j < n
      ensures nodes[j] in r && r[nodes[j]] == Block(total, n, j)
    {
      assert LastOccurrence(nodes, j);
    }
    ListsInOrderAreBlocks(r, nodes, total, n, n);
    assert nodes[..n] == nodes;
    BlocksAreRange(total, n, n);
    StartAtEnd(total, n);
  }

  lemma {:induction false} ListsInOrderAreBlocks(r: map<string, seq<int>>, nodes: seq<string>,
                                                 total: nat, n: nat, k: nat)
    requires n > 0 && k <= |nodes| <= n
    requires forall x :: x in nodes ==> x in r
    requires forall j :: 0 <= j < k ==> r[nodes[j]] == Block(total, n, j)
    ensures ListsInOrder(r, nodes[..k]) == Blocks(total, n, k)
  {
    if k > 0 {
      var prefix := nodes[..k];
      assert prefix[..k - 1] == nodes[..k - 1];
      ListsInOrderAreBlocks(r, nodes, total, n, k - 1);
    }
  }

  /** Total length: the lists of distinct nodes add up to `total` segments. */
  lemma DistributionSizesSumToTotal(nodes: seq<string>, total: int)
    requires Distinct(nodes) && |nodes| > 0 && total > 0
    ensures |ListsInOrder(DistributeEvenly(nodes, total), nodes)| == total
  {
    DistributionConcatenatesToRange(nodes, total);
  }

  /** A segment id lies in the block of position `i` exactly when it is between its start and the next start. */
  lemma InBlock(total: nat, n: nat, i: nat, seg: int)
    requires n > 0
    ensures seg in Block(total, n, i) <==> Start(total, n, i) <= seg < Start(total, n, i + 1)
  {
    StartStep(total, n, i);
    if Start(total, n, i) <= seg < Start(total, n, i + 1) {
      assert Block(total, n, i)[seg - Start(total, n, i)] == seg;
    }
  }

  /** Every id below `Start(k)` lies in one of the first `k` blocks. */
  lemma {:induction false} OwnerExists(total: nat, n: nat, k: nat, seg: int)
    requires n > 0 && 0 <= seg < Start(total, n, k)
    ensures exists i :: 0 <= i < k && seg in Block(total, n, i)
  {
    if k > 0 {
      if seg < Start(total, n, k - 1) {
        OwnerExists(total, n, k - 1, seg);
      } else {
        InBlock(total, n, k - 1, seg);
      }
    }
  }

  /** Some list of `r` holds segment `seg`. */
  predicate Owned(r: map<string, seq<int>>, seg: int) {
    exists x :: x in r && seg in r[x]
  }

  /**
   `r` partitions `[0, total)`: every id in range is in some list, no list holds an id
   out of range, and no id is in the lists of two different nodes.
   */
  predicate Partitions(r: map<string, seq<int>>, total: int) {
    && (forall seg :: 0 <= seg < total ==> Owned(r, seg))
    && (forall x, seg :: x in r && seg in r[x] ==> 0 <= seg < total)
    && (forall x, y, seg :: x in r && y in r && seg in r[x] && seg in r[y] ==> x == y)
  }

  /**
   Coverage and disjointness as sets: for distinct node names, every segment id in
   `[0, total)` belongs to exactly one node's list, and no list holds anything else.
   */
  lemma DistributionIsPartition(nodes: seq<string>, total: int)
    requires Distinct(nodes) && |nodes| > 0 && total > 0
    ensures Partitions(DistributeEvenly(nodes, total), total)
  {
    DistributionCovers(nodes, total);
    DistributionInRange(nodes, total);
    DistributionDisjoint(nodes, total);
  }

  lemma DistributionCovers(nodes: seq<string>, total: int)
    requires Distinct(nodes) && |nodes| > 0 && total > 0
    ensures forall seg :: 0 <= seg < total ==> Owned(DistributeEvenly(nodes, total), seg)
  {
    var r := DistributeEvenly(nodes, total);
    var n := |nodes|;
    StartAtEnd(total, n);
    forall seg | 0 <= seg < total
      ensures Owned(r, seg)
    {
      OwnerExists(total, n, n, seg);
      var i :| 0 <= i < n && seg in Block(total, n, i);
      assert LastOccurrence(nodes, i);
      assert r[nodes[i]] == Block(total, n, i);
    }
  }

  lemma DistributionInRange(nodes: seq<string>, total: int)
    requires Distinct(nodes) && |nodes| > 0 && total > 0
    ensures var r := DistributeEvenly(nodes, total);
      forall x, seg :: x in r && seg in r[x] ==> 0 <= seg < total
  {
    var r := DistributeEvenly(nodes, total);
    var n := |nodes|;
    StartAtEnd(total, n);
    forall x, seg | x in r && seg in r[x]
      ensures 0 <= seg < total
    {
      var i :| 0 <= i < n && nodes[i] == x;
      assert LastOccurrence(nodes, i);
      InBlock(total, n, i, seg);
      StartMonotone(total, n, i + 1, n);
    }
  }

  lemma DistributionDisjoint(nodes: seq<string>, total: int)
    requires Distinct(nodes) && |nodes| > 0 && total > 0
    ensures var r := DistributeEvenly(nodes, total);
      forall x, y, seg :: x in r && y in r && seg in r[x] && seg in r[y] ==> x == y
  {
    var r := DistributeEvenly(nodes, total);
    var n := |nodes|;
    forall x, y, seg | x in r && y in r && seg in r[x] && seg in r[y]
      ensures x == y
    {
      var i :| 0 <= i < n && nodes[i] == x;
      var j :| 0 <= j < n && nodes[j] == y;
      assert LastOccurrence(nodes, i) && LastOccurrence(nodes, j);
      InBlock(total, n, i, seg);
      InBlock(total, n, j, seg);
      if i < j {
        StartMonotone(total, n, i + 1, j);
      } else if j < i {
        StartMonotone(total, n, j + 1, i);
      }
    }
  }

  /**
   Any three distinct nodes and ten segments: the single extra segment goes to the
   first node, so the blocks are four, three and three ids long.
   */
  lemma ThreeNodesTenSegments(a: string, b: string, c: string)
    requires a != b && b != c && a != c
    ensures DistributeEvenly([a, b, c], 10) == map[a := [0, 1, 2, 3], b := [4, 5, 6], c := [7, 8, 9]]
  {
    var nodes := [a, b, c];
    var r := DistributeEvenly(nodes, 10);
    assert r.Keys == {a, b, c};
    assert r[a] == [0, 1, 2, 3] by {
      assert LastOccurrence(nodes, 0);
      assert Start(10, 3, 0) == 0 && Share(10, 3, 0) == 4;
      assert Range(0, 4) == [0, 1, 2, 3];
    }
    assert r[b] == [4, 5, 6] by {
      assert LastOccurrence(nodes, 1);
      assert Start(10, 3, 1) == 4 && Share(10, 3, 1) == 3;
      assert Range(4, 3) == [4, 5, 6];
    }
    assert r[c] == [7, 8, 9] by {
      assert LastOccurrence(nodes, 2);
      assert Start(10, 3, 2) == 7 && Share(10, 3, 2) == 3;
      assert Range(7, 3) == [7, 8, 9];
    }
  }

  /** The nodes `A`, `B` and `C` with ten segments. */
  lemma ThreeNamedNodesTenSegments()
    ensures DistributeEvenly(["A", "B", "C"], 10)
         == map["A" := [0, 1, 2, 3], "B" := [4, 5, 6], "C" := [7, 8, 9]]
  {
    ThreeNodesTenSegments("A", "B", "C");
  }
}
