/**
 The objective (calculateScore): for every cluster and every pair of positions
 i < j in it, the weights stored under (c[i], c[j]) and under (c[j], c[i]) are
 both added whenever either is present. A pair stored under both orderings is
 therefore counted twice; the model keeps that behaviour.
 */
module ScoreEvaluator {
  import opened Multisets
  import opened Sums
  import opened Graphs

  /** What the pair of members a, b contributes to the score. */
  function PairWeight(g: Instance, a: NodeId, b: NodeId): int
  {
    if (a, b) in g.edges || (b, a) in g.edges then EdgeWeight(g, a, b) + EdgeWeight(g, b, a) else 0
  }

  /** Contributions of the pairs (c[i], c[k]) for i < k < j: the inner loop after it reached j. */
  function RowSum(g: Instance, c: Cluster, i: nat, j: nat): int
    requires i < j <= |c|
    decreases j
  {
    if j == i + 1 then 0 else RowSum(g, c, i, j - 1) + PairWeight(g, c[i], c[j - 1])
  }

  /** Contributions of all pairs whose first position is below m: the middle loop after m rows. */
  function TriangleSum(g: Instance, c: Cluster, m: nat): int
    requires m <= |c|
  {
    if m == 0 then 0 else TriangleSum(g, c, m - 1) + RowSum(g, c, m - 1, |c|)
  }

  function ClusterScore(g: Instance, c: Cluster): int
  {
    TriangleSum(g, c, |c|)
  }

  function ClusterScoreOf(g: Instance): Cluster -> int
  {
    c => ClusterScore(g, c)
  }

  function Score(g: Instance, cs: Clustering): int
  {
    Sum(ClusterScoreOf(g), cs)
  }

  method CalculateScore(g: Instance, clusters: Clustering) returns (score: int)
    ensures score == Score(g, clusters)
  {
    score := 0;
    for k := 0 to |clusters|
      invariant score == Score(g, clusters[..k])
    {
      var cluster := clusters[k];
      ghost var before := score;
      for i := 0 to |cluster|
        invariant score == before + TriangleSum(g, cluster, i)
      {
        for j := i + 1 to |cluster|
          invariant score == before + TriangleSum(g, cluster, i) + RowSum(g, cluster, i, j)
        {
          if (cluster[i], cluster[j]) in g.edges || (cluster[j], cluster[i]) in g.edges {
            score := score + EdgeWeight(g, cluster[i], cluster[j]) + EdgeWeight(g, cluster[j], cluster[i]);
          }
        }
      }
      assert clusters[..k + 1][..k] == clusters[..k];
    }
    assert clusters[..|clusters|] == clusters;
  }

  /** A pair contributes the weights under both orderings, a missing entry counting 0. */
  lemma PairWeightBothOrders(g: Instance, a: NodeId, b: NodeId)
    ensures PairWeight(g, a, b) == EdgeWeight(g, a, b) + EdgeWeight(g, b, a)
    ensures PairWeight(g, a, b) == PairWeight(g, b, a)
  {
  }

  /** An edge stored under both orderings is counted with both weights. */
  lemma BothOrderingsCounted(a: NodeId, b: NodeId, v: int, w: int)
    requires a != b
    ensures Score(Instance(map[], map[(a, b) := v, (b, a) := w], 0, 0), [[a, b]]) == v + w
  {
    var g := Instance(map[], map[(a, b) := v, (b, a) := w], 0, 0);
    var c := [a, b];
    assert PairWeight(g, a, b) == v + w;
    assert RowSum(g, c, 0, 2) == RowSum(g, c, 0, 1) + PairWeight(g, a, b);
    assert TriangleSum(g, c, 1) == RowSum(g, c, 0, 2);
    assert TriangleSum(g, c, 2) == TriangleSum(g, c, 1) + RowSum(g, c, 1, 2);
    assert ClusterScore(g, c) == v + w;
    assert [c][..0] == [];
    assert Score(g, [c]) == Sum(ClusterScoreOf(g), []) + ClusterScoreOf(g)(c);
  }

  /** Clusters of at most one member contribute nothing; an empty clustering scores 0. */
  lemma {:induction false} ScoreOfSingletons(g: Instance, cs: Clustering)
    requires forall i :: 0 <= i < |cs| ==> |cs[i]| <= 1
    ensures Score(g, cs) == 0
  {
    if cs != [] {
      var n := |cs| - 1;
      ScoreOfSingletons(g, cs[..n]);
      if |cs[n]| == 1 {
        assert TriangleSum(g, cs[n], 1) == TriangleSum(g, cs[n], 0) + RowSum(g, cs[n], 0, 1);
      }
      assert ClusterScore(g, cs[n]) == 0;
      assert (forall i :: 0 <= i < n ==> |cs[..n][i]| <= 1);
    }
  }

  lemma {:induction false} RowSumNonNegative(g: Instance, c: Cluster, i: nat, j: nat)
    requires NonNegativeEdges(g)
    requires i < j <= |c|
    ensures RowSum(g, c, i, j) >= 0
    decreases j
  {
    if j > i + 1 {
      RowSumNonNegative(g, c, i, j - 1);
    }
  }

  lemma {:induction false} TriangleSumNonNegative(g: Instance, c: Cluster, m: nat)
    requires NonNegativeEdges(g)
    requires m <= |c|
    ensures TriangleSum(g, c, m) >= 0
  {
    if m > 0 {
      TriangleSumNonNegative(g, c, m - 1);
      RowSumNonNegative(g, c, m - 1, |c|);
    }
  }

  /** With non-negative edge weights every clustering scores at least 0. */
  lemma ScoreNonNegative(g: Instance, cs: Clustering)
    requires NonNegativeEdges(g)
    ensures Score(g, cs) >= 0
  {
    forall i | 0 <= i < |cs|
      ensures ClusterScoreOf(g)(cs[i]) >= 0
    {
      TriangleSumNonNegative(g, cs[i], |cs[i]|);
    }
    SumNonNegative(ClusterScoreOf(g), cs);
  }

  // ----- The score does not depend on the order of members or of clusters -----

  function PairWithOf(g: Instance, x: NodeId): NodeId -> int
  {
    y => PairWeight(g, y, x)
  }

  /** What x contributes when paired with every member of c. */
  function Star(g: Instance, c: Cluster, x: NodeId): int
  {
    Sum(PairWithOf(g, x), c)
  }

  lemma {:induction false} RowSumExtend(g: Instance, c: Cluster, x: NodeId, i: nat, j: nat)
    requires i < j <= |c|
    ensures RowSum(g, c + [x], i, j) == RowSum(g, c, i, j)
    decreases j
  {
    if j > i + 1 {
      RowSumExtend(g, c, x, i, j - 1);
    }
  }

  lemma {:induction false} TriangleSumExtend(g: Instance, c: Cluster, x: NodeId, m: nat)
    requires m <= |c|
    ensures TriangleSum(g, c + [x], m) == TriangleSum(g, c, m) + Star(g, c[..m], x)
  {
    if m > 0 {
      TriangleSumExtend(g, c, x, m - 1);
      RowSumExtend(g, c, x, m - 1, |c|);
      assert RowSum(g, c + [x], m - 1, |c| + 1) == RowSum(g, c + [x], m - 1, |c|) + PairWeight(g, c[m - 1], x);
      assert c[..m][..m - 1] == c[..m - 1];
    }
  }

  /** Adding a member x to c adds the weights of its pairs with the old members. */
  lemma ClusterScoreAppend(g: Instance, c: Cluster, x: NodeId)
    ensures ClusterScore(g, c + [x]) == ClusterScore(g, c) + Star(g, c, x)
  {
    TriangleSumExtend(g, c, x, |c|);
    assert c[..|c|] == c;
  }

  /** Removing a member from the middle of a cluster subtracts its pairs. */
  lemma {:induction false} ClusterScoreRemove(g: Instance, a: Cluster, x: NodeId, b: Cluster)
    ensures ClusterScore(g, a + [x] + b) == ClusterScore(g, a + b) + Star(g, a + b, x)
    decreases |b|
  {
    if b == [] {
      assert a + [x] + b == a + [x];
      assert a + b == a;
      ClusterScoreAppend(g, a, x);
    } else {
      var b', y := b[..|b| - 1], b[|b| - 1];
      assert a + [x] + b == (a + [x] + b') + [y];
      assert a + b == (a + b') + [y];
      ClusterScoreAppend(g, a + [x] + b', y);
      ClusterScoreRemove(g, a, x, b');
      ClusterScoreAppend(g, a + b', y);
      // Star(a + [x] + b', y) == Star(a + b', y) + PairWeight(x, y)
      SumAppend(PairWithOf(g, y), a + [x], b');
      SumAppend(PairWithOf(g, y), a, b');
      assert (a + [x])[..|a|] == a;
      // Star(a + b' + [y], x) == Star(a + b', x) + PairWeight(y, x)
      assert (a + b' + [y])[..|a + b'|] == a + b';
      PairWeightBothOrders(g, x, y);
    }
  }

  /** The score of a cluster depends only on its members, not on their order. */
  lemma {:induction false} ClusterScorePermutation(g: Instance, c: Cluster, d: Cluster)
    requires multiset(c) == multiset(d)
    ensures ClusterScore(g, c) == ClusterScore(g, d)
    decreases |c|
  {
    if c == [] {
      assert |d| == |multiset(d)| == 0;
    } else {
      var c', x := c[..|c| - 1], c[|c| - 1];
      assert c == c' + [x];
      var k := SplitAt(c', x, d);
      var a, b := d[..k], d[k + 1..];
      assert d == a + [x] + b;
      ClusterScorePermutation(g, c', a + b);
      ClusterScoreAppend(g, c', x);
      ClusterScoreRemove(g, a, x, b);
      SumPermutation(PairWithOf(g, x), c', a + b);
    }
  }

  /** The score does not depend on the order of the clusters. */
  lemma ScoreClusterOrder(g: Instance, cs: Clustering, ds: Clustering)
    requires multiset(cs) == multiset(ds)
    ensures Score(g, cs) == Score(g, ds)
  {
    SumPermutation(ClusterScoreOf(g), cs, ds);
  }

  /** The score does not depend on the order of the members within each cluster. */
  lemma ScoreMemberOrder(g: Instance, cs: Clustering, ds: Clustering)
    requires |cs| == |ds|
    requires forall i :: 0 <= i < |cs| ==> multiset(cs[i]) == multiset(ds[i])
    ensures Score(g, cs) == Score(g, ds)
  {
    forall i | 0 <= i < |cs|
      ensures ClusterScoreOf(g)(cs[i]) == ClusterScoreOf(g)(ds[i])
    {
      ClusterScorePermutation(g, cs[i], ds[i]);
    }
    SumPointwise(ClusterScoreOf(g), ClusterScoreOf(g), cs, ds);
  }
}
