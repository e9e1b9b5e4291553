/**
 Simulated annealing (simulatedAnnealing): each iteration perturbs the current
 clustering and moves to the neighbour when it scores more, or by chance
 otherwise; the best score met so far is recorded. The chance test compares
 exp((new - current) / temperature) with Math.random(), a value in [0, 1). For
 a neighbour that scores exactly as much, exp(0) = 1 exceeds every such value,
 so ties are always accepted; for a worse neighbour the outcome of the test is
 an input of the model.
 */
module AnnealingOptimizer {
  import opened Graphs
  import opened WeightEvaluator
  import opened ScoreEvaluator
  import opened PerturbationOperator
  import opened Progress

  /** The randomness one iteration consumes: the perturbation's draw and the outcome of the chance test. */
  datatype Trial = Trial(draw: Draw, lucky: bool)

  datatype Anneal = Anneal(current: Clustering, currentScore: int, best: int)

  /** Whether the neighbour scoring `newScore` replaces the current clustering scoring `currentScore`. */
  predicate Accepts(newScore: int, currentScore: int, lucky: bool)
  {
    newScore > currentScore || newScore == currentScore || lucky
  }

  function AnnealStep(g: Instance, st: Anneal, t: Trial): (r: Anneal)
    requires |st.current| > 0
    ensures |r.current| == |st.current|
  {
    var next := Neighbour(g, st.current, t.draw);
    var newScore := Score(g, next);
    if Accepts(newScore, st.currentScore, t.lucky) then
      Anneal(next, newScore, if Improves(newScore, st.best) then newScore else st.best)
    else
      st
  }

  function AnnealStart(g: Instance, initial: Clustering): Anneal
  {
    Anneal(initial, Score(g, initial), Score(g, initial))
  }

  /** The state after one iteration per element of `trials`. */
  function AnnealRun(g: Instance, initial: Clustering, trials: seq<Trial>): (r: Anneal)
    requires |initial| > 0 || trials == []
    ensures |r.current| == |initial|
  {
    if trials == [] then AnnealStart(g, initial)
    else AnnealStep(g, AnnealRun(g, initial, trials[..|trials| - 1]), trials[|trials| - 1])
  }

  lemma AnnealPrefix(g: Instance, initial: Clustering, trials: seq<Trial>, k: nat)
    requires |initial| > 0 && 0 < k <= |trials|
    ensures AnnealRun(g, initial, trials[..k]) == AnnealStep(g, AnnealRun(g, initial, trials[..k - 1]), trials[k - 1])
  {
    assert trials[..k][..k - 1] == trials[..k - 1];
  }

  /**
   The recorded current score is the score of the current clustering, and the
   best score is at least the current score and the initial score.
   */
  lemma {:induction false} AnnealInvariant(g: Instance, initial: Clustering, trials: seq<Trial>)
    requires |initial| > 0 || trials == []
    ensures var r := AnnealRun(g, initial, trials);
      r.currentScore == Score(g, r.current) && r.best >= r.currentScore && r.best >= Score(g, initial)
  {
    if trials != [] {
      var n := |trials| - 1;
      AnnealInvariant(g, initial, trials[..n]);
    }
  }

  /**
   Luck decides only for a worse neighbour: one that scores at least as much
   is taken whatever the chance test says; a worse one is taken when the test
   succeeds and otherwise leaves the state unchanged.
   */
  lemma LuckDecidesOnlyWorse(g: Instance, st: Anneal, d: Draw)
    requires |st.current| > 0
    ensures var next := Neighbour(g, st.current, d);
      var lucky, unlucky := AnnealStep(g, st, Trial(d, true)), AnnealStep(g, st, Trial(d, false));
      lucky.current == next && lucky.currentScore == Score(g, next) &&
      (Score(g, next) >= st.currentScore ==> unlucky == lucky) &&
      (Score(g, next) < st.currentScore ==> unlucky == st && lucky != st)
  {
  }

  lemma RunStepBest(g: Instance, initial: Clustering, trials: seq<Trial>, k: nat)
    requires |initial| > 0 && 0 < k <= |trials|
    ensures AnnealRun(g, initial, trials[..k - 1]).best <= AnnealRun(g, initial, trials[..k]).best
  {
    AnnealPrefix(g, initial, trials, k);
  }

  /** The best score never decreases from one iteration to a later one. */
  lemma {:induction false} AnnealBestMonotone(g: Instance, initial: Clustering, trials: seq<Trial>, k: nat, m: nat)
    requires |initial| > 0 && k <= m <= |trials|
    ensures AnnealRun(g, initial, trials[..k]).best <= AnnealRun(g, initial, trials[..m]).best
    decreases m
  {
    if k == m {
      assert trials[..k] == trials[..m];
    } else {
      AnnealBestMonotone(g, initial, trials, k, m - 1);
      RunStepBest(g, initial, trials, m);
    }
  }

  /** The best score after n iterations bounds the current score after every k <= n iterations. */
  lemma AnnealBestBounds(g: Instance, initial: Clustering, trials: seq<Trial>, n: nat)
    requires |initial| > 0 && n <= |trials|
    ensures forall k :: 0 <= k <= n ==> AnnealRun(g, initial, trials[..k]).currentScore <= AnnealRun(g, initial, trials[..n]).best
  {
    forall k | 0 <= k <= n
      ensures AnnealRun(g, initial, trials[..k]).currentScore <= AnnealRun(g, initial, trials[..n]).best
    {
      AnnealInvariant(g, initial, trials[..k]);
      AnnealBestMonotone(g, initial, trials, k, n);
    }
  }

  /** The best score after n iterations is the current score after some k <= n iterations. */
  lemma {:induction false} AnnealBestAttained(g: Instance, initial: Clustering, trials: seq<Trial>, n: nat)
    requires |initial| > 0 && n <= |trials|
    ensures exists k :: 0 <= k <= n && AnnealRun(g, initial, trials[..k]).currentScore == AnnealRun(g, initial, trials[..n]).best
    decreases n
  {
    if n == 0 {
      assert AnnealRun(g, initial, trials[..0]).currentScore == AnnealRun(g, initial, trials[..n]).best;
    } else {
      AnnealBestAttained(g, initial, trials, n - 1);
      AnnealPrefix(g, initial, trials, n);
      var p, r := AnnealRun(g, initial, trials[..n - 1]), AnnealRun(g, initial, trials[..n]);
      var w :| 0 <= w <= n - 1 && AnnealRun(g, initial, trials[..w]).currentScore == p.best;
      if r.best == p.best {
        assert AnnealRun(g, initial, trials[..w]).currentScore == r.best;
      } else {
        assert AnnealRun(g, initial, trials[..n]).currentScore == r.best;
      }
    }
  }

  /** The current clustering keeps the initial nodes and weight, and stays feasible when it starts feasible. */
  lemma {:induction false} AnnealConserves(g: Instance, initial: Clustering, trials: seq<Trial>)
    requires |initial| > 0
    ensures var r := AnnealRun(g, initial, trials).current;
      multiset(Flatten(r)) == multiset(Flatten(initial)) &&
      TotalWeight(g, r) == TotalWeight(g, initial) &&
      (Feasible(g, initial) ==> Feasible(g, r))
  {
    if trials != [] {
      var n := |trials| - 1;
      var prev := AnnealRun(g, initial, trials[..n]);
      AnnealConserves(g, initial, trials[..n]);
      NeighbourConserves(g, prev.current, trials[n].draw);
      NeighbourFeasible(g, prev.current, trials[n].draw);
    }
  }

  /** Without a lucky draw the current score never drops, so the best score is always the current one. */
  lemma {:induction false} UnluckyAnnealClimbs(g: Instance, initial: Clustering, trials: seq<Trial>)
    requires |initial| > 0 || trials == []
    requires forall i :: 0 <= i < |trials| ==> !trials[i].lucky
    ensures AnnealRun(g, initial, trials).best == AnnealRun(g, initial, trials).currentScore
  {
    if trials != [] {
      var n := |trials| - 1;
      UnluckyAnnealClimbs(g, initial, trials[..n]);
      AnnealInvariant(g, initial, trials[..n]);
    }
  }

  method SimulatedAnnealing(g: Instance, initialClusters: Clustering, iterations: int, trials: seq<Trial>)
    returns (bestScore: int)
    requires iterations <= |trials|
    requires iterations > 0 ==> |initialClusters| > 0
    ensures bestScore == AnnealRun(g, initialClusters, trials[..Iterations(iterations)]).best
    ensures bestScore >= Score(g, initialClusters)
  {
    var currentClusters := initialClusters;
    var currentScore := CalculateScore(g, currentClusters);
    bestScore := currentScore;
    var i := 0;
    while i < iterations
      invariant 0 <= i <= Iterations(iterations)
      invariant Anneal(currentClusters, currentScore, bestScore) == AnnealRun(g, initialClusters, trials[..i])
    {
      var newClusters := ModifyClusters(g, currentClusters, trials[i].draw);
      var newScore := CalculateScore(g, newClusters);
      if newScore > currentScore || newScore == currentScore || trials[i].lucky {
        currentClusters := newClusters;
        currentScore := newScore;
        if currentScore > bestScore {
          bestScore := currentScore;
        }
      }
      AnnealPrefix(g, initialClusters, trials, i + 1);
      i := i + 1;
    }
    assert i == Iterations(iterations);
    AnnealInvariant(g, initialClusters, trials[..i]);
  }
}
