/**
 The swap-and-check perturbation (modifyClusters). Two cluster indices are
 drawn; when both clusters are non-empty and differ in content, one drawn
 member of each changes sides (the first occurrence of each is removed and the
 other is appended). The swapped copy is returned when every cluster, an empty
 one included, then weighs between L and U; otherwise the input is returned.
 */
module PerturbationOperator {
  import opened Multisets
  import opened Sums
  import opened Graphs
  import opened WeightEvaluator

  /**
   The four values the source draws from java.util.Random: two cluster indices
   and a position in each chosen cluster. Random.nextInt(n) yields a value in
   [0, n); the model reduces each drawn value modulo n, which covers every
   such value.
   */
  datatype Draw = Draw(first: nat, second: nat, firstPos: nat, secondPos: nat)

  /** List.remove(Object): drops the first occurrence of x, if any. */
  function RemoveFirst(s: seq<NodeId>, x: NodeId): (r: seq<NodeId>)
    ensures x in s ==> |r| == |s| - 1 && multiset(r) + multiset{x} == multiset(s)
    ensures x !in s ==> r == s
  {
    if s == [] then []
    else if s[0] == x then assert s == [x] + s[1..]; s[1..]
    else assert s == [s[0]] + s[1..]; [s[0]] + RemoveFirst(s[1..], x)
  }

  /**
   The occurrence removed is the first one: the result is s without the
   element at the first position k holding x, the rest kept in order.
   */
  lemma {:induction false} RemoveFirstSplits(s: seq<NodeId>, x: NodeId) returns (k: nat)
    requires x in s
    ensures k < |s| && s[k] == x && x !in s[..k]
    ensures RemoveFirst(s, x) == s[..k] + s[k + 1..]
  {
    if s[0] == x {
      k := 0;
    } else {
      var k' := RemoveFirstSplits(s[1..], x);
      k := k' + 1;
      assert s[..k] == [s[0]] + s[1..][..k'];
      assert s[k + 1..] == s[1..][k' + 1..];
    }
  }

  /** Whether the draw makes the perturbation swap two members. */
  predicate Swaps(cs: Clustering, d: Draw)
    requires |cs| > 0
  {
    var i, j := d.first % |cs|, d.second % |cs|;
    cs[i] != [] && cs[j] != [] && cs[i] != cs[j]
  }

  /** The copy after the swap (the copy itself when the draw swaps nothing). */
  function Swap(cs: Clustering, d: Draw): Clustering
    requires |cs| > 0
  {
    var i, j := d.first % |cs|, d.second % |cs|;
    if Swaps(cs, d) then
      var a := cs[i][d.firstPos % |cs[i]|];
      var b := cs[j][d.secondPos % |cs[j]|];
      cs[i := RemoveFirst(cs[i], a) + [b]][j := RemoveFirst(cs[j], b) + [a]]
    else
      cs
  }

  /** What modifyClusters returns: the swapped copy if it is feasible, else the input. */
  function Neighbour(g: Instance, cs: Clustering, d: Draw): (r: Clustering)
    requires |cs| > 0
    ensures |r| == |cs|
  {
    var n := Swap(cs, d);
    if Feasible(g, n) then n else cs
  }

  /**
   nextInt(0) throws for an empty clustering; every caller passes the
   builder's two clusters, so the model requires at least one.
   */
  method ModifyClusters(g: Instance, clusters: Clustering, d: Draw) returns (result: Clustering)
    requires |clusters| > 0
    ensures result == Neighbour(g, clusters, d)
  {
    var newClusters := clusters;
    var cluster1Idx := d.first % |newClusters|;
    var cluster2Idx := d.second % |newClusters|;
    var cluster1 := newClusters[cluster1Idx];
    var cluster2 := newClusters[cluster2Idx];
    if cluster1 != [] && cluster2 != [] && cluster1 != cluster2 {
      var node1 := cluster1[d.firstPos % |cluster1|];
      var node2 := cluster2[d.secondPos % |cluster2|];
      cluster1 := RemoveFirst(cluster1, node1);
      cluster2 := RemoveFirst(cluster2, node2);
      cluster1 := cluster1 + [node2];
      cluster2 := cluster2 + [node1];
      newClusters := newClusters[cluster1Idx := cluster1][cluster2Idx := cluster2];
    }
    var weights := CalculateWeights(g, newClusters);
    if forall k :: 0 <= k < |weights| ==> g.L <= weights[k] <= g.U {
      return newClusters;
    }
    return clusters;
  }

  /**
   A swap happens only between two non-empty clusters at different indices
   whose contents differ; it keeps the number of clusters and the size of
   each, and touches no other cluster.
   */
  lemma SwapShape(cs: Clustering, d: Draw)
    requires |cs| > 0
    ensures var i, j, r := d.first % |cs|, d.second % |cs|, Swap(cs, d);
      |r| == |cs| &&
      (forall k :: 0 <= k < |cs| ==> |r[k]| == |cs[k]|) &&
      (r != cs ==> i != j && cs[i] != cs[j] && cs[i] != [] && cs[j] != []) &&
      (forall k :: 0 <= k < |cs| && k != i && k != j ==> r[k] == cs[k])
  {
    if Swaps(cs, d) {
      var i, j := d.first % |cs|, d.second % |cs|;
      assert cs[i][d.firstPos % |cs[i]|] in cs[i];
      assert cs[j][d.secondPos % |cs[j]|] in cs[j];
    }
  }

  /** Drawing the same index twice changes nothing. */
  lemma SameIndexIsNoOp(g: Instance, cs: Clustering, d: Draw)
    requires |cs| > 0 && d.first % |cs| == d.second % |cs|
    ensures Neighbour(g, cs, d) == cs
  {
  }

  /** Replacing two clusters by two others holding the same members in all keeps the members of the clustering. */
  lemma ReplaceTwo(cs: Clustering, i: nat, j: nat, ci: Cluster, cj: Cluster)
    requires i < |cs| && j < |cs| && i != j
    requires multiset(ci) + multiset(cj) == multiset(cs[i]) + multiset(cs[j])
    ensures multiset(Flatten(cs[i := ci][j := cj])) == multiset(Flatten(cs))
  {
    var mid := cs[i := ci];
    FlattenUpdate(cs, i, ci);
    FlattenUpdate(mid, j, cj);
    assert mid[j] == cs[j];
    TradeTwice(multiset(Flatten(cs)), multiset(Flatten(mid)), multiset(Flatten(mid[j := cj])),
               multiset(cs[i]), multiset(cs[j]), multiset(ci), multiset(cj));
  }

  /** The swap moves members between clusters but neither adds nor loses any. */
  lemma SwapConservesNodes(cs: Clustering, d: Draw)
    requires |cs| > 0
    ensures multiset(Flatten(Swap(cs, d))) == multiset(Flatten(cs))
  {
    if Swaps(cs, d) {
      var i, j := d.first % |cs|, d.second % |cs|;
      var a := cs[i][d.firstPos % |cs[i]|];
      var b := cs[j][d.secondPos % |cs[j]|];
      assert a in cs[i] && b in cs[j];
      var ci, cj := RemoveFirst(cs[i], a) + [b], RemoveFirst(cs[j], b) + [a];
      assert multiset(ci) == multiset(RemoveFirst(cs[i], a)) + multiset{b};
      assert multiset(cj) == multiset(RemoveFirst(cs[j], b)) + multiset{a};
      ReplaceTwo(cs, i, j, ci, cj);
    }
  }

  /** Removing x and appending y changes a cluster's weight by their difference. */
  lemma ExchangeWeight(g: Instance, c: Cluster, x: NodeId, y: NodeId)
    requires x in c
    ensures ClusterWeight(g, RemoveFirst(c, x) + [y]) == ClusterWeight(g, c) - NodeWeight(g, x) + NodeWeight(g, y)
  {
    var r := RemoveFirst(c, x);
    AppendWeight(g, r, y);
    AppendWeight(g, r, x);
    ClusterWeightPermutation(g, r + [x], c);
  }

  /** The swap keeps the total weight of the clustering. */
  lemma SwapConservesWeight(g: Instance, cs: Clustering, d: Draw)
    requires |cs| > 0
    ensures TotalWeight(g, Swap(cs, d)) == TotalWeight(g, cs)
  {
    if Swaps(cs, d) {
      var i, j := d.first % |cs|, d.second % |cs|;
      var a := cs[i][d.firstPos % |cs[i]|];
      var b := cs[j][d.secondPos % |cs[j]|];
      assert a in cs[i] && b in cs[j];
      var ci, cj := RemoveFirst(cs[i], a) + [b], RemoveFirst(cs[j], b) + [a];
      var mid := cs[i := ci];
      SumUpdate(ClusterWeightOf(g), cs, i, ci);
      SumUpdate(ClusterWeightOf(g), mid, j, cj);
      ExchangeWeight(g, cs[i], a, b);
      ExchangeWeight(g, cs[j], b, a);
      assert mid[j] == cs[j];
    }
  }

  /**
   The result is the input unchanged or the swapped copy, and the swapped copy
   only when every cluster is within [L, U]; so a feasible input stays feasible.
   */
  lemma NeighbourFeasible(g: Instance, cs: Clustering, d: Draw)
    requires |cs| > 0
    ensures var r := Neighbour(g, cs, d);
      (r == cs || (r == Swap(cs, d) && Feasible(g, r))) &&
      (Feasible(g, cs) ==> Feasible(g, r))
  {
  }

  /** The result has as many clusters as the input, the same nodes and the same total weight. */
  lemma NeighbourConserves(g: Instance, cs: Clustering, d: Draw)
    requires |cs| > 0
    ensures |Neighbour(g, cs, d)| == |cs|
    ensures multiset(Flatten(Neighbour(g, cs, d))) == multiset(Flatten(cs))
    ensures TotalWeight(g, Neighbour(g, cs, d)) == TotalWeight(g, cs)
  {
    SwapShape(cs, d);
    SwapConservesNodes(cs, d);
    SwapConservesWeight(g, cs, d);
  }
}
