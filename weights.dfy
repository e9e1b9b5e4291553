/**
 Cluster weights (calculateWeights): the total node weight of each cluster,
 an id missing from the node map counting 0, and the bound check that the
 perturbation applies to every cluster.
 */
module WeightEvaluator {
  import opened Sums
  import opened Graphs

  function WeightOf(g: Instance): NodeId -> int
  {
    x => NodeWeight(g, x)
  }

  /** Total node weight of the members of c. */
  function ClusterWeight(g: Instance, c: seq<NodeId>): int
  {
    Sum(WeightOf(g), c)
  }

  function ClusterWeightOf(g: Instance): Cluster -> int
  {
    c => ClusterWeight(g, c)
  }

  /** Sum of the weights of all clusters. */
  function TotalWeight(g: Instance, cs: Clustering): int
  {
    Sum(ClusterWeightOf(g), cs)
  }

  predicate Within(g: Instance, w: int)
  {
    g.L <= w <= g.U
  }

  /** Every cluster, an empty one (weight 0) included, weighs between L and U. */
  predicate Feasible(g: Instance, cs: Clustering)
  {
    forall i :: 0 <= i < |cs| ==> Within(g, ClusterWeight(g, cs[i]))
  }

  method CalculateWeights(g: Instance, clusters: Clustering) returns (weights: seq<int>)
    ensures |weights| == |clusters|
    ensures forall i :: 0 <= i < |clusters| ==> weights[i] == ClusterWeight(g, clusters[i])
  {
    weights := [];
    for k := 0 to |clusters|
      invariant |weights| == k
      invariant forall i :: 0 <= i < k ==> weights[i] == ClusterWeight(g, clusters[i])
    {
      var cluster := clusters[k];
      var weight := 0;
      for m := 0 to |cluster|
        invariant weight == ClusterWeight(g, cluster[..m])
      {
        assert cluster[..m + 1][..m] == cluster[..m];
        weight := weight + NodeWeight(g, cluster[m]);
      }
      assert cluster[..|cluster|] == cluster;
      weights := weights + [weight];
    }
  }

  /** The weight of a cluster does not depend on the order of its members. */
  lemma ClusterWeightPermutation(g: Instance, c: Cluster, d: Cluster)
    requires multiset(c) == multiset(d)
    ensures ClusterWeight(g, c) == ClusterWeight(g, d)
  {
    SumPermutation(WeightOf(g), c, d);
  }

  lemma {:induction false} ClusterWeightNonNegative(g: Instance, c: Cluster)
    requires NonNegativeNodes(g)
    ensures ClusterWeight(g, c) >= 0
  {
    SumNonNegative(WeightOf(g), c);
  }

  /** The weights of all clusters add up to the weight of all their members taken together. */
  lemma {:induction false} TotalWeightFlat(g: Instance, cs: Clustering)
    ensures TotalWeight(g, cs) == ClusterWeight(g, Flatten(cs))
  {
    if cs != [] {
      var n := |cs| - 1;
      TotalWeightFlat(g, cs[..n]);
      SumAppend(WeightOf(g), Flatten(cs[..n]), cs[n]);
    }
  }

  /** Appending one member adds its weight. */
  lemma AppendWeight(g: Instance, c: Cluster, x: NodeId)
    ensures ClusterWeight(g, c + [x]) == ClusterWeight(g, c) + NodeWeight(g, x)
  {
    assert (c + [x])[..|c|] == c;
  }
}
