/**
 * The topology of the 3-D mesh network.
 *
 * The mesh scene creates NODE_COUNT nodes and then joins every node to every
 * later node in the node list with one line: for each node, a loop over the
 * nodes after it. A connection is modelled only by the indices of its two
 * endpoints in the node list; the line's geometry is not part of the model.
 */
module Mesh {

  /** Number of nodes the mesh scene creates. */
  const NODE_COUNT: nat := 20

  /** A line between the nodes at these two indices of the node list. */
  type Connection = (nat, nat)

  /** p comes strictly before q in lexicographic order of (first, second). */
  predicate Precedes(p: Connection, q: Connection)
  {
    p.0 < q.0 || (p.0 == q.0 && p.1 < q.1)
  }

  /**
   * Number of connections emitted for the nodes before index i of an
   * n-node list: node k is joined to the n - 1 - k nodes after it.
   */
  function EmittedBefore(n: nat, i: nat): (r: nat)
    requires i <= n
  {
    if i == 0 then 0 else EmittedBefore(n, i - 1) + (n - i)
  }

  /** Position of the connection (a, b) in the emission order. */
  function Slot(n: nat, a: nat, b: nat): (r: nat)
    requires a < b <= n
  {
    EmittedBefore(n, a) + (b - a - 1)
  }

  /** Closed form of EmittedBefore. */
  lemma {:induction false} EmittedBeforeClosedForm(n: nat, i: nat)
    requires i <= n
    ensures 2 * EmittedBefore(n, i) == i * (2 * n - i - 1)
  {
    if i > 0 {
      EmittedBeforeClosedForm(n, i - 1);
      var m := 2 * n - i;
      assert (i - 1) * m == i * m - m;
      assert i * (m - 1) == i * m - i;
    }
  }

  /** All nodes together emit one connection per unordered pair. */
  lemma AllEmitted(n: nat)
    ensures EmittedBefore(n, n) == n * (n - 1) / 2
  {
    EmittedBeforeClosedForm(n, n);
  }

  /**
   * The inner loop for node i of n: one connection from i to each node after
   * it, in list order.
   */
  method LaterConnections(n: nat, i: nat) returns (row: seq<Connection>)
    requires i < n
    ensures |row| == n - 1 - i
    ensures forall k :: 0 <= k < |row| ==> row[k] == (i, i + 1 + k)
  {
    row := [];
    var j := i + 1;
    while j < n
      invariant i + 1 <= j <= n
      invariant |row| == j - i - 1
      invariant forall k :: 0 <= k < |row| ==> row[k] == (i, i + 1 + k)
    {
      row := row + [(i, j)];
      j := j + 1;
    }
  }

  /**
   * The nested loop of the mesh scene over n nodes: for every node i, one
   * connection to each node j after it, in list order.
   */
  method BuildConnections(n: nat) returns (connections: seq<Connection>)
    // one connection per unordered pair of nodes
    ensures |connections| == n * (n - 1) / 2
    // every connection joins two different nodes, lower index first
    ensures forall k :: 0 <= k < |connections| ==> connections[k].0 < connections[k].1 < n
    // emitted in strictly increasing lexicographic order, hence no duplicates
    ensures forall k, l :: 0 <= k < l < |connections| ==> Precedes(connections[k], connections[l])
    ensures forall k, l :: 0 <= k < |connections| && 0 <= l < |connections| && k != l ==>
      connections[k] != connections[l]
    // every pair of nodes is joined, at a position fixed by the loop order
    ensures forall a, b :: 0 <= a < b < n ==>
      Slot(n, a, b) < |connections| && connections[Slot(n, a, b)] == (a, b)
  {
    connections := [];
    var i := 0;
    while i < n
      invariant 0 <= i <= n
      invariant |connections| == EmittedBefore(n, i)
      invariant forall k :: 0 <= k < |connections| ==> connections[k].0 < connections[k].1 < n
      invariant forall k, l :: 0 <= k < l < |connections| ==> Precedes(connections[k], connections[l])
      invariant forall k :: 0 <= k < |connections| ==> connections[k].0 < i
      invariant forall a, b :: 0 <= a < b < n && a < i ==>
        Slot(n, a, b) < |connections| && connections[Slot(n, a, b)] == (a, b)
    {
      var row := LaterConnections(n, i);
      ghost var before := connections;
      connections := connections + row;
      assert EmittedBefore(n, i + 1) == |before| + |row|;
      forall k, l | 0 <= k < l < |connections|
        ensures Precedes(connections[k], connections[l])
      {
        if l < |before| {
          assert connections[k] == before[k] && connections[l] == before[l];
        } else if k < |before| {
          assert connections[k] == before[k] && connections[l] == row[l - |before|];
        } else {
          assert connections[k] == row[k - |before|] && connections[l] == row[l - |before|];
        }
      }
      forall a, b | 0 <= a < b < n && a < i + 1
        ensures Slot(n, a, b) < |connections| && connections[Slot(n, a, b)] == (a, b)
      {
        if a < i {
          assert connections[Slot(n, a, b)] == before[Slot(n, a, b)];
        } else {
          assert connections[Slot(n, a, b)] == row[b - i - 1];
        }
      }
      i := i + 1;
    }
    AllEmitted(n);
  }

  /**
   * The mesh scene's start-up: NODE_COUNT nodes, then the complete set of
   * connections among them.
   */
  method InitMesh() returns (connections: seq<Connection>)
    ensures |connections| == 190
    ensures forall k :: 0 <= k < |connections| ==> connections[k].0 < connections[k].1 < NODE_COUNT
    ensures forall a, b :: 0 <= a < b < NODE_COUNT ==> (a, b) in connections
  {
    connections := BuildConnections(NODE_COUNT);
    forall a, b | 0 <= a < b < NODE_COUNT
      ensures (a, b) in connections
    {
      assert connections[Slot(NODE_COUNT, a, b)] == (a, b);
    }
  }
}
