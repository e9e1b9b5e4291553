/**
 Hill climbing (localSearch): each iteration perturbs the best clustering so
 far and keeps the neighbour only when it scores strictly more.
 */
module LocalSearchOptimizer {
  import opened Graphs
  import opened WeightEvaluator
  import opened ScoreEvaluator
  import opened PerturbationOperator
  import opened Progress

  datatype Search = Search(clusters: Clustering, score: int)

  /** One iteration: perturb the best clustering and keep the neighbour if it scores strictly more. */
  function SearchStep(g: Instance, prev: Search, d: Draw): (r: Search)
    requires |prev.clusters| > 0
    ensures |r.clusters| == |prev.clusters|
  {
    var next := Neighbour(g, prev.clusters, d);
    var newScore := Score(g, next);
    if Improves(newScore, prev.score) then Search(next, newScore) else prev
  }

  /** The state after one iteration per element of `draws`. */
  function LocalSearchRun(g: Instance, initial: Clustering, draws: seq<Draw>): (r: Search)
    requires |initial| > 0 || draws == []
    ensures |r.clusters| == |initial|
  {
    if draws == [] then Search(initial, Score(g, initial))
    else SearchStep(g, LocalSearchRun(g, initial, draws[..|draws| - 1]), draws[|draws| - 1])
  }

  lemma RunPrefix(g: Instance, initial: Clustering, draws: seq<Draw>, k: nat)
    requires |initial| > 0 && k < |draws|
    ensures LocalSearchRun(g, initial, draws[..k + 1]) == SearchStep(g, LocalSearchRun(g, initial, draws[..k]), draws[k])
  {
    assert draws[..k + 1][..k] == draws[..k];
  }

  /** The recorded score is the score of the recorded clustering, and never below the initial score. */
  lemma {:induction false} LocalSearchInvariant(g: Instance, initial: Clustering, draws: seq<Draw>)
    requires |initial| > 0 || draws == []
    ensures LocalSearchRun(g, initial, draws).score == Score(g, LocalSearchRun(g, initial, draws).clusters)
    ensures LocalSearchRun(g, initial, draws).score >= Score(g, initial)
  {
    if draws != [] {
      var prev := LocalSearchRun(g, initial, draws[..|draws| - 1]);
      LocalSearchInvariant(g, initial, draws[..|draws| - 1]);
      assert LocalSearchRun(g, initial, draws) == SearchStep(g, prev, draws[|draws| - 1]);
    }
  }

  /**
   One iteration never lowers the best score, and changes the state only for a
   neighbour that scores strictly more.
   */
  lemma LocalSearchStep(g: Instance, initial: Clustering, draws: seq<Draw>, k: nat)
    requires |initial| > 0 && k < |draws|
    ensures var p, q := LocalSearchRun(g, initial, draws[..k]), LocalSearchRun(g, initial, draws[..k + 1]);
      var next := Neighbour(g, p.clusters, draws[k]);
      q.score >= p.score &&
      (q != p ==> q.clusters == next && q.score == Score(g, next) > p.score) &&
      (Score(g, next) > p.score ==> q.clusters == next)
  {
    RunPrefix(g, initial, draws, k);
  }

  lemma StepMonotone(g: Instance, p: Search, d: Draw)
    requires |p.clusters| > 0
    ensures SearchStep(g, p, d).score >= p.score
  {
  }

  /** The best score after k iterations is at most the best score after m >= k iterations. */
  lemma {:induction false} LocalSearchMonotone(g: Instance, initial: Clustering, draws: seq<Draw>, k: nat, m: nat)
    requires |initial| > 0 && k <= m <= |draws|
    ensures LocalSearchRun(g, initial, draws[..k]).score <= LocalSearchRun(g, initial, draws[..m]).score
    decreases m
  {
    if k == m {
      assert draws[..k] == draws[..m];
    } else {
      LocalSearchMonotone(g, initial, draws, k, m - 1);
      RunStepMonotone(g, initial, draws, m);
    }
  }

  lemma RunStepMonotone(g: Instance, initial: Clustering, draws: seq<Draw>, k: nat)
    requires |initial| > 0 && 0 < k <= |draws|
    ensures LocalSearchRun(g, initial, draws[..k - 1]).score <= LocalSearchRun(g, initial, draws[..k]).score
  {
    assert draws[..k][..k - 1] == draws[..k - 1];
    StepMonotone(g, LocalSearchRun(g, initial, draws[..k - 1]), draws[k - 1]);
  }

  /** The search only visits clusterings with the initial nodes and weight, and feasible ones when it starts feasible. */
  lemma {:induction false} LocalSearchConserves(g: Instance, initial: Clustering, draws: seq<Draw>)
    requires |initial| > 0
    ensures var r := LocalSearchRun(g, initial, draws).clusters;
      multiset(Flatten(r)) == multiset(Flatten(initial)) &&
      TotalWeight(g, r) == TotalWeight(g, initial) &&
      (Feasible(g, initial) ==> Feasible(g, r))
  {
    if draws != [] {
      var prev := LocalSearchRun(g, initial, draws[..|draws| - 1]);
      LocalSearchConserves(g, initial, draws[..|draws| - 1]);
      assert LocalSearchRun(g, initial, draws) == SearchStep(g, prev, draws[|draws| - 1]);
      NeighbourConserves(g, prev.clusters, draws[|draws| - 1]);
      NeighbourFeasible(g, prev.clusters, draws[|draws| - 1]);
    }
  }

  /**
   The source returns only the best score; the best clustering is returned as
   well so that the contract can relate the two.
   */
  method LocalSearch(g: Instance, initialClusters: Clustering, iterations: int, draws: seq<Draw>)
    returns (bestScore: int, bestClusters: Clustering)
    requires iterations <= |draws|
    requires iterations > 0 ==> |initialClusters| > 0
    ensures Search(bestClusters, bestScore) == LocalSearchRun(g, initialClusters, draws[..Iterations(iterations)])
    ensures bestScore == Score(g, bestClusters)
    ensures bestScore >= Score(g, initialClusters)
    ensures iterations <= 0 ==> bestClusters == initialClusters && bestScore == Score(g, initialClusters)
  {
    bestClusters := initialClusters;
    bestScore := CalculateScore(g, bestClusters);
    var i := 0;
    while i < iterations
      invariant 0 <= i <= Iterations(iterations)
      invariant Search(bestClusters, bestScore) == LocalSearchRun(g, initialClusters, draws[..i])
    {
      var newClusters := ModifyClusters(g, bestClusters, draws[i]);
      var newScore := CalculateScore(g, newClusters);
      if newScore > bestScore {
        bestScore := newScore;
        bestClusters := newClusters;
      }
      RunPrefix(g, initialClusters, draws, i);
      i := i + 1;
    }
    assert i == Iterations(iterations);
    LocalSearchInvariant(g, initialClusters, draws[..i]);
  }
}
