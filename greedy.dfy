/**
 The deterministic first-fit builder (greedyHeuristic). The nodes, listed in
 the node map's iteration order, are stably sorted by descending weight; each
 node then goes into the first of two clusters whose running weight w admits
 it (w + weight <= U, and w + weight >= L unless the cluster is still empty),
 and is dropped when neither does.
 */
module GreedyBuilder {
  import opened Multisets
  import opened Sums
  import opened Graphs
  import opened WeightEvaluator

  // ----- The stable sort by descending weight (List.sort with a reversed comparator) -----

  /** Node a weighs strictly more than node b. */
  predicate Heavier(g: Instance, a: NodeId, b: NodeId)
  {
    NodeWeight(g, a) > NodeWeight(g, b)
  }

  /** Inserts x before the first element of t that is not heavier than x. */
  function Insert(g: Instance, x: NodeId, t: seq<NodeId>): seq<NodeId>
  {
    if t != [] && Heavier(g, t[0], x) then [t[0]] + Insert(g, x, t[1..])
    else [x] + t
  }

  function SortByWeight(g: Instance, s: seq<NodeId>): seq<NodeId>
  {
    if s == [] then [] else Insert(g, s[0], SortByWeight(g, s[1..]))
  }

  ghost predicate Descending(g: Instance, s: seq<NodeId>)
  {
    forall i, j :: 0 <= i < j < |s| ==> NodeWeight(g, s[i]) >= NodeWeight(g, s[j])
  }

  /** The elements of s that weigh exactly w, in their order in s. */
  function WithWeight(g: Instance, s: seq<NodeId>, w: int): seq<NodeId>
  {
    if s == [] then []
    else (if NodeWeight(g, s[0]) == w then [s[0]] else []) + WithWeight(g, s[1..], w)
  }

  lemma {:induction false} InsertPermutation(g: Instance, x: NodeId, t: seq<NodeId>)
    ensures multiset(Insert(g, x, t)) == multiset(t) + multiset{x}
  {
    if t != [] && Heavier(g, t[0], x) {
      InsertPermutation(g, x, t[1..]);
      assert t == [t[0]] + t[1..];
    }
  }

  /** The sort returns a permutation of its input. */
  lemma {:induction false} SortPermutation(g: Instance, s: seq<NodeId>)
    ensures multiset(SortByWeight(g, s)) == multiset(s)
  {
    if s != [] {
      SortPermutation(g, s[1..]);
      InsertPermutation(g, s[0], SortByWeight(g, s[1..]));
      assert s == [s[0]] + s[1..];
    }
  }

  lemma {:induction false} InsertDescending(g: Instance, x: NodeId, t: seq<NodeId>)
    requires Descending(g, t)
    ensures Descending(g, Insert(g, x, t))
  {
    if t != [] && Heavier(g, t[0], x) {
      var r := Insert(g, x, t[1..]);
      InsertDescending(g, x, t[1..]);
      InsertPermutation(g, x, t[1..]);
      forall y | y in r
        ensures NodeWeight(g, t[0]) >= NodeWeight(g, y)
      {
        assert y in multiset(r);
        if y != x {
          assert y in t[1..];
        }
      }
      assert Insert(g, x, t) == [t[0]] + r;
    }
  }

  /** The sort lists heavier nodes first. */
  lemma {:induction false} SortDescending(g: Instance, s: seq<NodeId>)
    ensures Descending(g, SortByWeight(g, s))
  {
    if s != [] {
      SortDescending(g, s[1..]);
      InsertDescending(g, s[0], SortByWeight(g, s[1..]));
    }
  }

  lemma {:induction false} InsertStable(g: Instance, x: NodeId, t: seq<NodeId>, w: int)
    ensures WithWeight(g, Insert(g, x, t), w) == WithWeight(g, [x] + t, w)
  {
    if t != [] && Heavier(g, t[0], x) {
      InsertStable(g, x, t[1..], w);
      assert ([x] + t)[1..] == t;
      assert ([x] + t[1..])[1..] == t[1..];
      assert ([t[0]] + Insert(g, x, t[1..]))[1..] == Insert(g, x, t[1..]);
      assert t == [t[0]] + t[1..];
    }
  }

  /** The sort is stable: nodes of equal weight keep their relative order. */
  lemma {:induction false} SortStable(g: Instance, s: seq<NodeId>, w: int)
    ensures WithWeight(g, SortByWeight(g, s), w) == WithWeight(g, s, w)
  {
    if s != [] {
      SortStable(g, s[1..], w);
      InsertStable(g, s[0], SortByWeight(g, s[1..]), w);
      assert ([s[0]] + SortByWeight(g, s[1..]))[1..] == SortByWeight(g, s[1..]);
    }
  }

  // ----- First-fit placement -----

  /** A cluster holding c with running weight cw accepts a node of weight w. */
  predicate Admits(g: Instance, c: Cluster, cw: int, w: int)
  {
    cw + w <= g.U && (cw + w >= g.L || c == [])
  }

  /** The first index k >= i of a cluster that admits weight w, or None when none does. */
  function FirstFit(g: Instance, cs: Clustering, ws: seq<int>, w: int, i: nat): (r: Option<nat>)
    requires |cs| == |ws| && i <= |cs|
    ensures r.Some? ==> i <= r.value < |cs| && Admits(g, cs[r.value], ws[r.value], w)
    ensures r.Some? ==> forall j :: i <= j < r.value ==> !Admits(g, cs[j], ws[j], w)
    ensures r == None ==> forall j :: i <= j < |cs| ==> !Admits(g, cs[j], ws[j], w)
    decreases |cs| - i
  {
    if i == |cs| then None
    else if Admits(g, cs[i], ws[i], w) then Some(i)
    else FirstFit(g, cs, ws, w, i + 1)
  }

  /** The builder's state: clusters, their running weights, and (for the proofs) the dropped nodes. */
  datatype Build = Build(clusters: Clustering, weights: seq<int>, dropped: seq<NodeId>)

  predicate WellFormed(b: Build)
  {
    |b.clusters| == |b.weights|
  }

  /** One step of the outer loop: x goes to the first admitting cluster, or is dropped. */
  function Place(g: Instance, b: Build, x: NodeId): Build
    requires WellFormed(b)
  {
    var w := NodeWeight(g, x);
    match FirstFit(g, b.clusters, b.weights, w, 0)
    case Some(k) => Build(b.clusters[k := b.clusters[k] + [x]], b.weights[k := b.weights[k] + w], b.dropped)
    case None => Build(b.clusters, b.weights, b.dropped + [x])
  }

  const Start := Build([[], []], [0, 0], [])

  /** The state after the nodes of s were visited in order. */
  function BuildFrom(g: Instance, s: seq<NodeId>): (b: Build)
    ensures |b.clusters| == |b.weights| == 2
  {
    if s == [] then Start else Place(g, BuildFrom(g, s[..|s| - 1]), s[|s| - 1])
  }

  /** The clustering the builder returns for a node map iterated in `order`. */
  function Greedy(g: Instance, order: seq<NodeId>): Clustering
  {
    BuildFrom(g, SortByWeight(g, order)).clusters
  }

  lemma BuildPrefix(g: Instance, s: seq<NodeId>, k: nat)
    requires k < |s|
    ensures BuildFrom(g, s[..k + 1]) == Place(g, BuildFrom(g, s[..k]), s[k])
  {
    assert s[..k + 1][..k] == s[..k];
  }

  method GreedyHeuristic(g: Instance, order: seq<NodeId>) returns (clusters: Clustering)
    requires IsIterationOrder(g, order)
    ensures |clusters| == 2
    ensures clusters == Greedy(g, order)
  {
    clusters := [[], []];
    var clusterWeights := [0, 0];
    ghost var dropped: seq<NodeId> := [];
    var sortedNodes := SortByWeight(g, order);
    for k := 0 to |sortedNodes|
      invariant Build(clusters, clusterWeights, dropped) == BuildFrom(g, sortedNodes[..k])
    {
      ghost var b := Build(clusters, clusterWeights, dropped);
      var node := sortedNodes[k];
      var weight := NodeWeight(g, node);
      ghost var placed := false;
      var i := 0;
      while i < |clusters|
        invariant 0 <= i <= |clusters|
        invariant clusters == b.clusters && clusterWeights == b.weights
        invariant FirstFit(g, b.clusters, b.weights, weight, i) == FirstFit(g, b.clusters, b.weights, weight, 0)
      {
        if Admits(g, clusters[i], clusterWeights[i], weight) {
          clusters := clusters[i := clusters[i] + [node]];
          clusterWeights := clusterWeights[i := clusterWeights[i] + weight];
          placed := true;
          break;
        }
        i := i + 1;
      }
      if placed {
        assert FirstFit(g, b.clusters, b.weights, weight, 0) == Some(i);
      } else {
        assert FirstFit(g, b.clusters, b.weights, weight, 0) == None;
        dropped := dropped + [node];
      }
      assert Build(clusters, clusterWeights, dropped) == Place(g, b, node);
      BuildPrefix(g, sortedNodes, k);
    }
    assert sortedNodes[..|sortedNodes|] == sortedNodes;
  }

  // ----- What the builder guarantees -----

  /** The running weights are the weights calculateWeights would compute. */
  ghost predicate WeightsTracked(g: Instance, b: Build)
  {
    WellFormed(b) && forall i :: 0 <= i < |b.clusters| ==> b.weights[i] == ClusterWeight(g, b.clusters[i])
  }

  /** A non-empty cluster weighs at most U; one with two or more members at least L. */
  ghost predicate Bounded(g: Instance, b: Build)
  {
    WellFormed(b) &&
    forall i :: 0 <= i < |b.clusters| ==>
      (b.clusters[i] != [] ==> b.weights[i] <= g.U) && (|b.clusters[i]| >= 2 ==> b.weights[i] >= g.L)
  }

  /** x joins the first admitting cluster and nothing else changes; it is dropped exactly when no cluster admits it. */
  lemma PlaceFirstFit(g: Instance, b: Build, x: NodeId)
    requires WellFormed(b)
    ensures var r := Place(g, b, x);
      |r.clusters| == |b.clusters| &&
      ((exists j :: 0 <= j < |b.clusters| && Admits(g, b.clusters[j], b.weights[j], NodeWeight(g, x))) <==>
       r.dropped == b.dropped) &&
      (r.dropped == b.dropped ==>
        exists k :: 0 <= k < |b.clusters| && Admits(g, b.clusters[k], b.weights[k], NodeWeight(g, x)) &&
          (forall j :: 0 <= j < k ==> !Admits(g, b.clusters[j], b.weights[j], NodeWeight(g, x))) &&
          r.clusters == b.clusters[k := b.clusters[k] + [x]]) &&
      (r.dropped != b.dropped ==> r.dropped == b.dropped + [x] && r.clusters == b.clusters)
  {
    if FirstFit(g, b.clusters, b.weights, NodeWeight(g, x), 0) == None {
      assert |Place(g, b, x).dropped| == |b.dropped| + 1;
    }
  }

  lemma PlaceKeepsInvariants(g: Instance, b: Build, x: NodeId)
    requires WeightsTracked(g, b) && Bounded(g, b)
    ensures WeightsTracked(g, Place(g, b, x)) && Bounded(g, Place(g, b, x))
  {
    match FirstFit(g, b.clusters, b.weights, NodeWeight(g, x), 0)
    case Some(k) => AppendWeight(g, b.clusters[k], x);
    case None =>
  }

  lemma {:induction false} BuildInvariants(g: Instance, s: seq<NodeId>)
    ensures WeightsTracked(g, BuildFrom(g, s)) && Bounded(g, BuildFrom(g, s))
  {
    if s == [] {
      assert ClusterWeight(g, []) == 0;
    } else {
      BuildInvariants(g, s[..|s| - 1]);
      PlaceKeepsInvariants(g, BuildFrom(g, s[..|s| - 1]), s[|s| - 1]);
    }
  }

  lemma PlaceConserves(g: Instance, b: Build, x: NodeId)
    requires WellFormed(b)
    ensures var r := Place(g, b, x);
      multiset(Flatten(r.clusters)) + multiset(r.dropped) ==
      multiset(Flatten(b.clusters)) + multiset(b.dropped) + multiset{x}
  {
    match FirstFit(g, b.clusters, b.weights, NodeWeight(g, x), 0)
    case Some(k) =>
      var c := b.clusters[k];
      FlattenUpdate(b.clusters, k, c + [x]);
      assert multiset(c + [x]) == multiset(c) + multiset{x};
      Cancel(multiset(Flatten(b.clusters[k := c + [x]])), multiset(Flatten(b.clusters)) + multiset{x}, multiset(c));
    case None =>
  }

  /** Every visited node ends up either in exactly one cluster or among the dropped. */
  lemma {:induction false} BuildConserves(g: Instance, s: seq<NodeId>)
    ensures multiset(Flatten(BuildFrom(g, s).clusters)) + multiset(BuildFrom(g, s).dropped) == multiset(s)
  {
    if s != [] {
      var n := |s| - 1;
      BuildConserves(g, s[..n]);
      PlaceConserves(g, BuildFrom(g, s[..n]), s[n]);
      MultisetOfLast(s);
    }
  }

  /** The cluster weights and the dropped nodes' weights add up to the weight of all visited nodes. */
  lemma BuildWeightSum(g: Instance, s: seq<NodeId>)
    ensures TotalWeight(g, BuildFrom(g, s).clusters) + ClusterWeight(g, BuildFrom(g, s).dropped) == ClusterWeight(g, s)
  {
    var b := BuildFrom(g, s);
    BuildConserves(g, s);
    TotalWeightFlat(g, b.clusters);
    SumAppend(WeightOf(g), Flatten(b.clusters), b.dropped);
    ClusterWeightPermutation(g, Flatten(b.clusters) + b.dropped, s);
  }

  /** The builder returns two clusters, each empty, or at most U, and at least L once it holds two nodes. */
  lemma GreedyBounds(g: Instance, order: seq<NodeId>)
    ensures |Greedy(g, order)| == 2
    ensures forall i :: 0 <= i < 2 ==>
      var c := Greedy(g, order)[i];
      (c != [] ==> ClusterWeight(g, c) <= g.U) && (|c| >= 2 ==> ClusterWeight(g, c) >= g.L)
  {
    BuildInvariants(g, SortByWeight(g, order));
  }

  /** Every node is placed at most once, and only nodes of the map are placed. */
  lemma GreedyPlacesOnce(g: Instance, order: seq<NodeId>)
    requires IsIterationOrder(g, order)
    ensures multiset(Flatten(Greedy(g, order))) <= multiset(g.nodes.Keys)
  {
    var s := SortByWeight(g, order);
    SortPermutation(g, order);
    BuildConserves(g, s);
  }

  lemma {:induction false} DroppedAreNodes(g: Instance, order: seq<NodeId>)
    requires IsIterationOrder(g, order)
    ensures forall x :: x in BuildFrom(g, SortByWeight(g, order)).dropped ==> x in g.nodes
  {
    var s := SortByWeight(g, order);
    var b := BuildFrom(g, s);
    SortPermutation(g, order);
    BuildConserves(g, s);
    forall x | x in b.dropped
      ensures x in g.nodes
    {
      assert x in multiset(b.dropped);
      assert x in multiset(s);
      assert x in multiset(g.nodes.Keys);
    }
  }

  /** Whether every node was placed: what is in the clusters is all of the node map. */
  predicate AllPlaced(g: Instance, order: seq<NodeId>)
  {
    multiset(Flatten(Greedy(g, order))) == multiset(order)
  }

  /** With non-negative node weights the clusters weigh at most the whole node map, and exactly that when every node was placed. */
  lemma GreedyWeightBound(g: Instance, order: seq<NodeId>)
    requires IsIterationOrder(g, order) && NonNegativeNodes(g)
    ensures TotalWeight(g, Greedy(g, order)) <= ClusterWeight(g, order)
    ensures AllPlaced(g, order) ==> TotalWeight(g, Greedy(g, order)) == ClusterWeight(g, order)
  {
    var s := SortByWeight(g, order);
    var b := BuildFrom(g, s);
    SortPermutation(g, order);
    BuildWeightSum(g, s);
    BuildConserves(g, s);
    ClusterWeightPermutation(g, s, order);
    DroppedAreNodes(g, order);
    forall i | 0 <= i < |b.dropped|
      ensures WeightOf(g)(b.dropped[i]) >= 0
    {
      assert b.dropped[i] in b.dropped;
    }
    SumNonNegative(WeightOf(g), b.dropped);
    if AllPlaced(g, order) {
      assert multiset(b.dropped) == multiset{};
      assert b.dropped == [];
    }
  }

  /** With strictly positive node weights, equal totals mean that no node was dropped. */
  lemma GreedyFullWeightMeansAllPlaced(g: Instance, order: seq<NodeId>)
    requires IsIterationOrder(g, order) && PositiveNodes(g)
    ensures TotalWeight(g, Greedy(g, order)) == ClusterWeight(g, order) ==> AllPlaced(g, order)
  {
    var s := SortByWeight(g, order);
    var b := BuildFrom(g, s);
    SortPermutation(g, order);
    BuildWeightSum(g, s);
    BuildConserves(g, s);
    ClusterWeightPermutation(g, s, order);
    DroppedAreNodes(g, order);
    if b.dropped != [] {
      var n := |b.dropped| - 1;
      forall i | 0 <= i < n
        ensures WeightOf(g)(b.dropped[..n][i]) >= 0
      {
        assert b.dropped[i] in b.dropped;
      }
      SumNonNegative(WeightOf(g), b.dropped[..n]);
      assert b.dropped[n] in b.dropped;
      assert ClusterWeight(g, b.dropped) > 0;
    } else {
      assert multiset(b.dropped) == multiset{};
    }
  }
}
