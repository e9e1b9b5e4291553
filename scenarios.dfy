/**
 Small worked instances of the optimiser: four nodes of weight 5 joined in
 two heavy pairs, where the greedy result depends on the node map's
 iteration order; and a node of weight 0 that the builder drops although
 the cluster weights add up.
 */
module Scenarios {
  import opened Sums
  import opened Graphs
  import opened WeightEvaluator
  import opened ScoreEvaluator
  import opened GreedyBuilder

  /** Nodes A..D of weight 5; edges A-B and C-D of weight 10, A-C of weight 1; clusters must weigh 5 to 10. */
  const Pairs := Instance(
    map["A" := 5, "B" := 5, "C" := 5, "D" := 5],
    map[("A", "B") := 10, ("C", "D") := 10, ("A", "C") := 1],
    5, 10)

  lemma SumOfOne<T>(f: T -> int, x: T)
    ensures Sum(f, [x]) == f(x)
  {
    assert [x][..0] == [];
  }

  lemma SumOfTwo<T>(f: T -> int, x: T, y: T)
    ensures Sum(f, [x, y]) == f(x) + f(y)
  {
    assert [x, y][..1] == [x];
    SumOfOne(f, x);
  }

  /** Sorting nodes of equal weight keeps them in iteration order. */
  lemma {:induction false} EqualWeightsKeepOrder(g: Instance, a: NodeId, b: NodeId, c: NodeId, d: NodeId)
    requires NodeWeight(g, a) == NodeWeight(g, b) == NodeWeight(g, c) == NodeWeight(g, d)
    ensures SortByWeight(g, [a, b, c, d]) == [a, b, c, d]
  {
    var s := [a, b, c, d];
    assert SortByWeight(g, s[3..]) == [d] by {
      assert s[3..][1..] == [];
    }
    assert SortByWeight(g, s[2..]) == [c, d] by {
      assert s[2..][1..] == s[3..];
    }
    assert SortByWeight(g, s[1..]) == [b, c, d] by {
      assert s[1..][1..] == s[2..];
    }
  }

  /** The builder's state after visiting s and then x. */
  lemma BuildSnoc(g: Instance, s: seq<NodeId>, x: NodeId)
    ensures BuildFrom(g, s + [x]) == Place(g, BuildFrom(g, s), x)
  {
    assert (s + [x])[..|s|] == s;
  }

  /** For nodes of weight 5 under bounds [5, 10]: a joins the first cluster, */
  lemma FirstOfFour(g: Instance, a: NodeId)
    requires g.L == 5 && g.U == 10 && NodeWeight(g, a) == 5
    ensures BuildFrom(g, [a]) == Build([[a], []], [5, 0], [])
  {
    BuildSnoc(g, [], a);
    assert FirstFit(g, Start.clusters, Start.weights, 5, 0) == Some(0);
    assert [] + [a] == [a];
  }

  /** b fills it up to 10, */
  lemma SecondOfFour(g: Instance, a: NodeId, b: NodeId)
    requires g.L == 5 && g.U == 10 && NodeWeight(g, a) == 5 && NodeWeight(g, b) == 5
    ensures BuildFrom(g, [a, b]) == Build([[a, b], []], [10, 0], [])
  {
    FirstOfFour(g, a);
    BuildSnoc(g, [a], b);
    assert [a] + [b] == [a, b];
    var b1 := Build([[a], []], [5, 0], []);
    assert FirstFit(g, b1.clusters, b1.weights, 5, 0) == Some(0);
  }

  /** c opens the second cluster, */
  lemma ThirdOfFour(g: Instance, a: NodeId, b: NodeId, c: NodeId)
    requires g.L == 5 && g.U == 10 && NodeWeight(g, a) == 5 && NodeWeight(g, b) == 5 && NodeWeight(g, c) == 5
    ensures BuildFrom(g, [a, b, c]) == Build([[a, b], [c]], [10, 5], [])
  {
    SecondOfFour(g, a, b);
    BuildSnoc(g, [a, b], c);
    assert [a, b] + [c] == [a, b, c];
    var b2 := Build([[a, b], []], [10, 0], []);
    assert FirstFit(g, b2.clusters, b2.weights, 5, 1) == Some(1);
    assert FirstFit(g, b2.clusters, b2.weights, 5, 0) == Some(1);
    assert [] + [c] == [c];
  }

  /** and d joins c. */
  lemma TwoByTwo(g: Instance, a: NodeId, b: NodeId, c: NodeId, d: NodeId)
    requires g.L == 5 && g.U == 10
    requires NodeWeight(g, a) == 5 && NodeWeight(g, b) == 5 && NodeWeight(g, c) == 5 && NodeWeight(g, d) == 5
    ensures BuildFrom(g, [a, b, c, d]).clusters == [[a, b], [c, d]]
  {
    ThirdOfFour(g, a, b, c);
    BuildSnoc(g, [a, b, c], d);
    assert [a, b, c] + [d] == [a, b, c, d];
    var b3 := Build([[a, b], [c]], [10, 5], []);
    assert FirstFit(g, b3.clusters, b3.weights, 5, 1) == Some(1);
    assert FirstFit(g, b3.clusters, b3.weights, 5, 0) == Some(1);
    assert [c] + [d] == [c, d];
  }

  /** A two-member cluster scores the pair weights stored under both orderings. */
  lemma PairScore(g: Instance, a: NodeId, b: NodeId)
    ensures ClusterScore(g, [a, b]) == EdgeWeight(g, a, b) + EdgeWeight(g, b, a)
  {
    var c := [a, b];
    PairWeightBothOrders(g, a, b);
    assert RowSum(g, c, 0, 2) == RowSum(g, c, 0, 1) + PairWeight(g, a, b);
    assert TriangleSum(g, c, 1) == TriangleSum(g, c, 0) + RowSum(g, c, 0, 2);
    assert TriangleSum(g, c, 2) == TriangleSum(g, c, 1) + RowSum(g, c, 1, 2);
  }

  /** The score of two two-member clusters. */
  lemma TwoPairsScore(g: Instance, a: NodeId, b: NodeId, c: NodeId, d: NodeId)
    ensures Score(g, [[a, b], [c, d]]) ==
      EdgeWeight(g, a, b) + EdgeWeight(g, b, a) + EdgeWeight(g, c, d) + EdgeWeight(g, d, c)
  {
    PairScore(g, a, b);
    PairScore(g, c, d);
    SumOfTwo(ClusterScoreOf(g), [a, b], [c, d]);
  }

  lemma PairsWeights()
    ensures NodeWeight(Pairs, "A") == 5 && NodeWeight(Pairs, "B") == 5
    ensures NodeWeight(Pairs, "C") == 5 && NodeWeight(Pairs, "D") == 5
  {
  }

  lemma PairsEdges()
    ensures EdgeWeight(Pairs, "A", "B") == 10 && EdgeWeight(Pairs, "B", "A") == 0
    ensures EdgeWeight(Pairs, "C", "D") == 10 && EdgeWeight(Pairs, "D", "C") == 0
    ensures EdgeWeight(Pairs, "A", "C") == 1 && EdgeWeight(Pairs, "C", "A") == 0
    ensures EdgeWeight(Pairs, "B", "D") == 0 && EdgeWeight(Pairs, "D", "B") == 0
  {
  }

  /** Iterating A, B, C, D, the builder pairs A with B and C with D: score 20. */
  lemma GreedyPairsHeavyEdges()
    ensures Greedy(Pairs, ["A", "B", "C", "D"]) == [["A", "B"], ["C", "D"]]
    ensures Score(Pairs, Greedy(Pairs, ["A", "B", "C", "D"])) == 20
  {
    PairsWeights();
    PairsEdges();
    EqualWeightsKeepOrder(Pairs, "A", "B", "C", "D");
    TwoByTwo(Pairs, "A", "B", "C", "D");
    TwoPairsScore(Pairs, "A", "B", "C", "D");
  }

  /** Iterating A, C, B, D instead, the builder pairs A with C and B with D: score 1. */
  lemma GreedyDependsOnOrder()
    ensures Greedy(Pairs, ["A", "C", "B", "D"]) == [["A", "C"], ["B", "D"]]
    ensures Score(Pairs, Greedy(Pairs, ["A", "C", "B", "D"])) == 1
  {
    PairsWeights();
    PairsEdges();
    EqualWeightsKeepOrder(Pairs, "A", "C", "B", "D");
    TwoByTwo(Pairs, "A", "C", "B", "D");
    TwoPairsScore(Pairs, "A", "C", "B", "D");
  }

  /** A node of weight 0 left over when neither cluster can take it. */
  const Leftover := Instance(map["A" := 5, "B" := 3, "Z" := 0], map[], 10, 20)

  lemma LeftoverSorted()
    ensures SortByWeight(Leftover, ["A", "B", "Z"]) == ["A", "B", "Z"]
  {
    var s := ["A", "B", "Z"];
    assert s[1..][1..] == ["Z"] && ["Z"][1..] == [];
    assert SortByWeight(Leftover, ["Z"]) == ["Z"];
    assert SortByWeight(Leftover, s[1..]) == ["B", "Z"] by {
      assert ["B"] + ["Z"] == ["B", "Z"];
    }
    assert ["A"] + ["B", "Z"] == s;
  }

  lemma LeftoverFirst()
    ensures BuildFrom(Leftover, ["A"]) == Build([["A"], []], [5, 0], [])
  {
    BuildSnoc(Leftover, [], "A");
    assert NodeWeight(Leftover, "A") == 5;
    assert FirstFit(Leftover, Start.clusters, Start.weights, 5, 0) == Some(0);
    assert [] + ["A"] == ["A"];
  }

  lemma LeftoverFirstTwo()
    ensures BuildFrom(Leftover, ["A", "B"]) == Build([["A"], ["B"]], [5, 3], [])
  {
    var g := Leftover;
    LeftoverFirst();
    BuildSnoc(g, ["A"], "B");
    assert ["A"] + ["B"] == ["A", "B"];
    assert NodeWeight(g, "B") == 3;
    var b1 := Build([["A"], []], [5, 0], []);
    assert FirstFit(g, b1.clusters, b1.weights, 3, 1) == Some(1);
    assert FirstFit(g, b1.clusters, b1.weights, 3, 0) == Some(1);
    assert [] + ["B"] == ["B"];
  }

  lemma LeftoverBuild()
    ensures BuildFrom(Leftover, SortByWeight(Leftover, ["A", "B", "Z"])) == Build([["A"], ["B"]], [5, 3], ["Z"])
  {
    var g := Leftover;
    LeftoverSorted();
    LeftoverFirstTwo();
    BuildSnoc(g, ["A", "B"], "Z");
    assert ["A", "B"] + ["Z"] == ["A", "B", "Z"];
    var b2 := Build([["A"], ["B"]], [5, 3], []);
    assert FirstFit(g, b2.clusters, b2.weights, 0, 2) == None;
    assert FirstFit(g, b2.clusters, b2.weights, 0, 0) == None;
    assert [] + ["Z"] == ["Z"];
  }

  lemma LeftoverWeights()
    ensures TotalWeight(Leftover, [["A"], ["B"]]) == 8
    ensures ClusterWeight(Leftover, ["A", "B", "Z"]) == 8
  {
    var g := Leftover;
    SumOfOne(WeightOf(g), "A");
    SumOfOne(WeightOf(g), "B");
    SumOfTwo(ClusterWeightOf(g), ["A"], ["B"]);
    SumOfTwo(WeightOf(g), "A", "B");
    assert ["A", "B", "Z"][..2] == ["A", "B"];
  }

  lemma LeftoverMembers()
    ensures "Z" !in multiset(Flatten([["A"], ["B"]]))
  {
    var cs := [["A"], ["B"]];
    assert cs[..1][..0] == [] && cs[..1] == [["A"]];
    assert Flatten(cs) == ["A", "B"];
  }

  /**
   Iterating A, B, Z, node B cannot join A (5 + 3 < L) and opens the second
   cluster, and Z fits neither: it is dropped, yet the clusters weigh as much
   as all nodes together. Equal totals do not imply that every node was
   placed unless every node weighs more than 0.
   */
  lemma ZeroWeightNodeDropped()
    ensures Greedy(Leftover, ["A", "B", "Z"]) == [["A"], ["B"]]
    ensures TotalWeight(Leftover, Greedy(Leftover, ["A", "B", "Z"])) == ClusterWeight(Leftover, ["A", "B", "Z"])
    ensures !AllPlaced(Leftover, ["A", "B", "Z"])
  {
    LeftoverBuild();
    LeftoverWeights();
    LeftoverMembers();
    assert "Z" in multiset(["A", "B", "Z"]);
  }
}
