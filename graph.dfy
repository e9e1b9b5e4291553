/**
 The problem instance the optimiser works on: node weights keyed by node id,
 edge weights keyed by ORDERED pairs of ids (the source's two-element lists),
 and the cluster-weight bounds L and U. A cluster is a list of node ids and a
 clustering a list of clusters.
 */
module Graphs {
  import opened Multisets

  type NodeId = string
  type Cluster = seq<NodeId>
  type Clustering = seq<Cluster>

  datatype Option<T> = None | Some(value: T)

  datatype Instance = Instance(
    nodes: map<NodeId, int>,
    edges: map<(NodeId, NodeId), int>,
    L: int,
    U: int)

  /** The weight of a node, 0 for an id the node map does not hold (getOrDefault). */
  function NodeWeight(g: Instance, x: NodeId): int
  {
    if x in g.nodes then g.nodes[x] else 0
  }

  /** The weight stored under the ordered pair (a, b), 0 if there is none. */
  function EdgeWeight(g: Instance, a: NodeId, b: NodeId): int
  {
    if (a, b) in g.edges then g.edges[(a, b)] else 0
  }

  predicate NonNegativeNodes(g: Instance)
  {
    forall x :: x in g.nodes ==> g.nodes[x] >= 0
  }

  predicate PositiveNodes(g: Instance)
  {
    forall x :: x in g.nodes ==> g.nodes[x] > 0
  }

  predicate NonNegativeEdges(g: Instance)
  {
    forall e :: e in g.edges ==> g.edges[e] >= 0
  }

  /** `order` lists every key of the node map exactly once: an iteration order of the map. */
  predicate IsIterationOrder(g: Instance, order: seq<NodeId>)
  {
    multiset(order) == multiset(g.nodes.Keys)
  }

  /** All members of all clusters, cluster after cluster. */
  function Flatten(cs: Clustering): seq<NodeId>
  {
    if cs == [] then [] else Flatten(cs[..|cs| - 1]) + cs[|cs| - 1]
  }

  /** Replacing cluster i by c trades the members of cs[i] for those of c. */
  lemma {:induction false} FlattenUpdate(cs: Clustering, i: nat, c: Cluster)
    requires i < |cs|
    ensures multiset(Flatten(cs[i := c])) + multiset(cs[i]) == multiset(Flatten(cs)) + multiset(c)
  {
    var n := |cs| - 1;
    var u := cs[i := c];
    assert Flatten(u) == Flatten(u[..n]) + u[n];
    assert Flatten(cs) == Flatten(cs[..n]) + cs[n];
    if i == n {
      assert u[..n] == cs[..n];
    } else {
      assert u[..n] == cs[..n][i := c];
      FlattenUpdate(cs[..n], i, c);
      assert cs[..n][i] == cs[i] && u[n] == cs[n];
      Rebalance(multiset(Flatten(u[..n])), multiset(Flatten(cs[..n])), multiset(cs[i]), multiset(c), multiset(cs[n]));
    }
  }
}
