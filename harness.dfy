/**
 The experiment harness (executeAndDisplay, runAndDisplayResults): every run
 rebuilds the greedy clustering, applies the named algorithm to it and
 appends the resulting score to the algorithm's list; the best recorded score
 (0 for an empty list) is reported. The class holds the optimiser's static
 state: the instance, set through its setters, and the three score lists.
 */
module ExperimentHarness {
  import opened Graphs
  import opened ScoreEvaluator
  import opened GreedyBuilder
  import opened PerturbationOperator
  import opened Progress
  import opened LocalSearchOptimizer
  import opened AnnealingOptimizer

  const GreedyName := "Greedy Heuristic"
  const LocalName := "Local Search"
  const AnnealingName := "Simulated Annealing"

  datatype Algorithm = GreedyAlgorithm | LocalSearchAlgorithm | AnnealingAlgorithm

  /** The algorithm a name selects; None for a name executeAndDisplay rejects. */
  function AlgorithmNamed(name: string): Option<Algorithm>
  {
    if name == GreedyName then Some(GreedyAlgorithm)
    else if name == LocalName then Some(LocalSearchAlgorithm)
    else if name == AnnealingName then Some(AnnealingAlgorithm)
    else None
  }

  /** The three names runAndDisplayResults uses select the three algorithms. */
  lemma NamesSelect()
    ensures AlgorithmNamed(GreedyName) == Some(GreedyAlgorithm)
    ensures AlgorithmNamed(LocalName) == Some(LocalSearchAlgorithm)
    ensures AlgorithmNamed(AnnealingName) == Some(AnnealingAlgorithm)
  {
    assert LocalName[0] != GreedyName[0];
    assert AnnealingName[0] != GreedyName[0] && AnnealingName[0] != LocalName[0];
  }

  /** What executeAndDisplay ends with: the best score, or the exception for an unknown name. */
  datatype Outcome = Completed(best: int) | Thrown(message: string)

  /** The random values each run consumes: perturbation draws for local search, trials for annealing. */
  datatype Randomness = Randomness(draws: seq<seq<Draw>>, trials: seq<seq<Trial>>)

  /** Enough random values for `runs` runs of `iterations` iterations each of an algorithm that uses them. */
  predicate Supplies(rnd: Randomness, alg: Algorithm, runs: int, iterations: int)
  {
    (alg == LocalSearchAlgorithm ==>
      |rnd.draws| >= runs && forall r :: 0 <= r < runs ==> iterations <= |rnd.draws[r]|) &&
    (alg == AnnealingAlgorithm ==>
      |rnd.trials| >= runs && forall r :: 0 <= r < runs ==> iterations <= |rnd.trials[r]|)
  }

  /** The highest score of the list, 0 for an empty list. */
  function Best(s: seq<int>): (m: int)
    ensures s == [] ==> m == 0
    ensures s != [] ==> m in s
    ensures forall x :: x in s ==> x <= m
  {
    if s == [] then 0
    else
      assert s == s[..|s| - 1] + [s[|s| - 1]];
      if |s| == 1 || s[|s| - 1] > Best(s[..|s| - 1]) then s[|s| - 1]
      else Best(s[..|s| - 1])
  }

  /** The score the run numbered `run` records. */
  function RunScore(g: Instance, order: seq<NodeId>, alg: Algorithm, iterations: int, rnd: Randomness, run: nat): int
    requires Supplies(rnd, alg, run + 1, iterations)
  {
    var initial := Greedy(g, order);
    match alg
    case GreedyAlgorithm => Score(g, initial)
    case LocalSearchAlgorithm => LocalSearchRun(g, initial, rnd.draws[run][..Iterations(iterations)]).score
    case AnnealingAlgorithm => AnnealRun(g, initial, rnd.trials[run][..Iterations(iterations)]).best
  }

  /** The scores of the first `runs` runs, in order. */
  function RunScores(g: Instance, order: seq<NodeId>, alg: Algorithm, iterations: int, rnd: Randomness, runs: int): (s: seq<int>)
    requires Supplies(rnd, alg, runs, iterations)
    ensures |s| == Iterations(runs)
  {
    if runs <= 0 then []
    else RunScores(g, order, alg, iterations, rnd, runs - 1) + [RunScore(g, order, alg, iterations, rnd, runs - 1)]
  }

  /** One run: the greedy clustering, then the named algorithm on it; `known` is false for an unknown name. */
  method RunOnce(g: Instance, order: seq<NodeId>, algorithm: string, iterations: int, rnd: Randomness, run: nat)
    returns (known: bool, score: int)
    requires IsIterationOrder(g, order)
    requires AlgorithmNamed(algorithm).Some? ==> Supplies(rnd, AlgorithmNamed(algorithm).value, run + 1, iterations)
    ensures known == AlgorithmNamed(algorithm).Some?
    ensures known ==> score == RunScore(g, order, AlgorithmNamed(algorithm).value, iterations, rnd, run)
  {
    var initialClusters := GreedyHeuristic(g, order);
    known := true;
    if algorithm == GreedyName {
      score := CalculateScore(g, initialClusters);
    } else if algorithm == LocalName {
      var bestClusters;
      score, bestClusters := LocalSearch(g, initialClusters, iterations, rnd.draws[run]);
    } else if algorithm == AnnealingName {
      score := SimulatedAnnealing(g, initialClusters, iterations, rnd.trials[run]);
    } else {
      known, score := false, 0;
    }
  }

  /** One pass of the loop below: the next run's score extends the scores recorded so far. */
  method RecordRun(g: Instance, order: seq<NodeId>, algorithm: string, iterations: int, rnd: Randomness, run: nat,
                   ghost recorded: seq<int>)
    returns (known: bool, score: int)
    requires IsIterationOrder(g, order)
    requires AlgorithmNamed(algorithm).Some? ==>
      Supplies(rnd, AlgorithmNamed(algorithm).value, run + 1, iterations) &&
      recorded == RunScores(g, order, AlgorithmNamed(algorithm).value, iterations, rnd, run)
    ensures known == AlgorithmNamed(algorithm).Some?
    ensures known ==> recorded + [score] == RunScores(g, order, AlgorithmNamed(algorithm).value, iterations, rnd, run + 1)
  {
    known, score := RunOnce(g, order, algorithm, iterations, rnd, run);
  }

  /**
   Runs `runs` times and appends one score per run to `scores`. An unknown
   algorithm name is detected inside the loop, so it throws only when at
   least one run is made, before any score is appended.
   */
  method ExecuteAndDisplay(g: Instance, order: seq<NodeId>, algorithm: string, iterations: int, runs: int,
                           scores: seq<int>, rnd: Randomness)
    returns (newScores: seq<int>, outcome: Outcome)
    requires IsIterationOrder(g, order)
    requires AlgorithmNamed(algorithm).Some? ==> Supplies(rnd, AlgorithmNamed(algorithm).value, runs, iterations)
    ensures AlgorithmNamed(algorithm) == None ==>
      newScores == scores &&
      outcome == if runs > 0 then Thrown("Unknown algorithm: " + algorithm) else Completed(Best(scores))
    ensures AlgorithmNamed(algorithm).Some? ==>
      newScores == scores + RunScores(g, order, AlgorithmNamed(algorithm).value, iterations, rnd, runs) &&
      outcome == Completed(Best(newScores))
  {
    ghost var named := AlgorithmNamed(algorithm);
    newScores := scores;
    var run := 0;
    ghost var recorded: seq<int> := [];
    assert scores + recorded == scores;
    while run < runs
      invariant 0 <= run <= Iterations(runs)
      invariant run > 0 ==> named.Some?
      invariant named.Some? ==> recorded == RunScores(g, order, named.value, iterations, rnd, run)
      invariant newScores == scores + recorded
      invariant named == None ==> recorded == []
    {
      var known, score := RecordRun(g, order, algorithm, iterations, rnd, run, recorded);
      if !known {
        return newScores, Thrown("Unknown algorithm: " + algorithm);
      }
      assert (scores + recorded) + [score] == scores + (recorded + [score]);
      newScores := newScores + [score];
      recorded := recorded + [score];
      run := run + 1;
    }
    assert run == Iterations(runs);
    outcome := Completed(Best(newScores));
  }

  /** Every run of the greedy algorithm records the score of the greedy clustering. */
  lemma {:induction false} GreedyRunsAgree(g: Instance, order: seq<NodeId>, iterations: int, rnd: Randomness, runs: int)
    ensures forall i :: 0 <= i < Iterations(runs) ==>
      RunScores(g, order, GreedyAlgorithm, iterations, rnd, runs)[i] == Score(g, Greedy(g, order))
  {
    if runs > 0 {
      GreedyRunsAgree(g, order, iterations, rnd, runs - 1);
    }
  }

  /** Every run records at least the score of the greedy clustering it starts from. */
  lemma RunAtLeastGreedy(g: Instance, order: seq<NodeId>, alg: Algorithm, iterations: int, rnd: Randomness, run: nat)
    requires Supplies(rnd, alg, run + 1, iterations)
    ensures RunScore(g, order, alg, iterations, rnd, run) >= Score(g, Greedy(g, order))
  {
    var initial := Greedy(g, order);
    match alg
    case GreedyAlgorithm =>
    case LocalSearchAlgorithm =>
      LocalSearchInvariant(g, initial, rnd.draws[run][..Iterations(iterations)]);
    case AnnealingAlgorithm =>
      AnnealInvariant(g, initial, rnd.trials[run][..Iterations(iterations)]);
  }

  /** With at least one run, the best score of any algorithm is at least the greedy score, and greedy's is exactly that. */
  lemma BestAtLeastGreedy(g: Instance, order: seq<NodeId>, alg: Algorithm, iterations: int, rnd: Randomness, runs: int)
    requires runs > 0 && Supplies(rnd, alg, runs, iterations)
    ensures Best(RunScores(g, order, alg, iterations, rnd, runs)) >= Score(g, Greedy(g, order))
    ensures alg == GreedyAlgorithm ==> Best(RunScores(g, order, alg, iterations, rnd, runs)) == Score(g, Greedy(g, order))
  {
    var s := RunScores(g, order, alg, iterations, rnd, runs);
    RunAtLeastGreedy(g, order, alg, iterations, rnd, runs - 1);
    assert s[runs - 1] in s;
    if alg == GreedyAlgorithm {
      GreedyRunsAgree(g, order, iterations, rnd, runs);
    }
  }

  /**
   The three experiments runAndDisplayResults performs, each on an empty list:
   greedy, local search and annealing, `runs` times each.
   */
  method RunExperiments(g: Instance, order: seq<NodeId>, iterations: int, runs: int, localRnd: Randomness, annealingRnd: Randomness)
    returns (greedyScores: seq<int>, localScores: seq<int>, annealingScores: seq<int>,
             greedyBest: int, localBest: int, annealingBest: int)
    requires IsIterationOrder(g, order)
    requires Supplies(localRnd, LocalSearchAlgorithm, runs, iterations)
    requires Supplies(annealingRnd, AnnealingAlgorithm, runs, iterations)
    ensures greedyScores == RunScores(g, order, GreedyAlgorithm, iterations, Randomness([], []), runs)
    ensures localScores == RunScores(g, order, LocalSearchAlgorithm, iterations, localRnd, runs)
    ensures annealingScores == RunScores(g, order, AnnealingAlgorithm, iterations, annealingRnd, runs)
    ensures greedyBest == Best(greedyScores) && localBest == Best(localScores) && annealingBest == Best(annealingScores)
    ensures runs > 0 ==> greedyBest == Score(g, Greedy(g, order))
    ensures runs > 0 ==> localBest >= greedyBest && annealingBest >= greedyBest
    ensures runs <= 0 ==> greedyBest == 0 && localBest == 0 && annealingBest == 0
  {
    NamesSelect();
    var outcome;
    greedyScores, outcome := ExecuteAndDisplay(g, order, GreedyName, iterations, runs, [], Randomness([], []));
    greedyBest := outcome.best;
    localScores, outcome := ExecuteAndDisplay(g, order, LocalName, iterations, runs, [], localRnd);
    localBest := outcome.best;
    annealingScores, outcome := ExecuteAndDisplay(g, order, AnnealingName, iterations, runs, [], annealingRnd);
    annealingBest := outcome.best;
    if runs > 0 {
      BestAtLeastGreedy(g, order, GreedyAlgorithm, iterations, Randomness([], []), runs);
      BestAtLeastGreedy(g, order, LocalSearchAlgorithm, iterations, localRnd, runs);
      BestAtLeastGreedy(g, order, AnnealingAlgorithm, iterations, annealingRnd, runs);
    }
  }

  /** The optimiser's static state. */
  class GraphOptimization {
    var nodes: map<NodeId, int>
    var edges: map<(NodeId, NodeId), int>
    var L: int
    var U: int
    var scoresGreedy: seq<int>
    var scoresLocal: seq<int>
    var scoresAnnealing: seq<int>

    constructor ()
      ensures nodes == map[] && edges == map[] && L == 0 && U == 0
      ensures scoresGreedy == [] && scoresLocal == [] && scoresAnnealing == []
    {
      nodes, edges, L, U := map[], map[], 0, 0;
      scoresGreedy, scoresLocal, scoresAnnealing := [], [], [];
    }

    function Problem(): Instance
      reads this
    {
      Instance(nodes, edges, L, U)
    }

    method SetNodes(newNodes: map<NodeId, int>)
      modifies this
      ensures nodes == newNodes && edges == old(edges) && L == old(L) && U == old(U)
      ensures scoresGreedy == old(scoresGreedy) && scoresLocal == old(scoresLocal) && scoresAnnealing == old(scoresAnnealing)
    {
      nodes := newNodes;
    }

    method SetEdges(newEdges: map<(NodeId, NodeId), int>)
      modifies this
      ensures edges == newEdges && nodes == old(nodes) && L == old(L) && U == old(U)
      ensures scoresGreedy == old(scoresGreedy) && scoresLocal == old(scoresLocal) && scoresAnnealing == old(scoresAnnealing)
    {
      edges := newEdges;
    }

    method SetLimits(lowerLimit: int, upperLimit: int)
      modifies this
      ensures L == lowerLimit && U == upperLimit && nodes == old(nodes) && edges == old(edges)
      ensures scoresGreedy == old(scoresGreedy) && scoresLocal == old(scoresLocal) && scoresAnnealing == old(scoresAnnealing)
    {
      L, U := lowerLimit, upperLimit;
    }

    /**
     Clears the three score lists and fills each with the scores of `runs`
     runs of its algorithm; returns the three best scores.
     */
    method RunAndDisplayResults(iterations: int, runs: int, order: seq<NodeId>, localRnd: Randomness, annealingRnd: Randomness)
      returns (greedyBest: int, localBest: int, annealingBest: int)
      requires IsIterationOrder(Problem(), order)
      requires Supplies(localRnd, LocalSearchAlgorithm, runs, iterations)
      requires Supplies(annealingRnd, AnnealingAlgorithm, runs, iterations)
      modifies this
      ensures nodes == old(nodes) && edges == old(edges) && L == old(L) && U == old(U)
      ensures scoresGreedy == RunScores(Problem(), order, GreedyAlgorithm, iterations, Randomness([], []), runs)
      ensures scoresLocal == RunScores(Problem(), order, LocalSearchAlgorithm, iterations, localRnd, runs)
      ensures scoresAnnealing == RunScores(Problem(), order, AnnealingAlgorithm, iterations, annealingRnd, runs)
      ensures greedyBest == Best(scoresGreedy) && localBest == Best(scoresLocal) && annealingBest == Best(scoresAnnealing)
      ensures runs > 0 ==> greedyBest == Score(Problem(), Greedy(Problem(), order))
      ensures runs > 0 ==> localBest >= greedyBest && annealingBest >= greedyBest
      ensures runs <= 0 ==> greedyBest == 0 && localBest == 0 && annealingBest == 0
    {
      var g := Problem();
      scoresGreedy, scoresLocal, scoresAnnealing := [], [], [];
      var greedyScores, localScores, annealingScores;
      greedyScores, localScores, annealingScores, greedyBest, localBest, annealingBest :=
        RunExperiments(g, order, iterations, runs, localRnd, annealingRnd);
      scoresGreedy, scoresLocal, scoresAnnealing := greedyScores, localScores, annealingScores;
      assert Problem() == g;
    }
  }
}
