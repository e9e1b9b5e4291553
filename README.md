# Capacitated two-cluster graph optimiser, modelled in Dafny

`GraphOptimization` splits the nodes of a weighted graph into two clusters. Every cluster
must weigh between a lower bound `L` and an upper bound `U`. The aim is to maximise the
total weight of the edges that stay inside a cluster. The optimiser holds:

- a node-weight map;
- an edge-weight map keyed by ordered pairs of node ids;
- the two bounds.

It offers three algorithms and an experiment harness:

- a deterministic first-fit greedy builder;
- a local search that keeps a random perturbation only when it scores strictly more;
- simulated annealing;
- the harness, which runs each algorithm several times and reports the best score.

The model covers the integer core of those operations:

- the score of a clustering;
- the weight of each cluster;
- the greedy builder, with its stable sort by descending weight;
- the swap-and-check perturbation;
- the two iterative improvers;
- the harness and the class that holds the optimiser's state.

Randomness is an input of the model:

- The order in which the node map is iterated is a sequence `order`. It lists every key exactly once.
- The values the perturbation draws from `java.util.Random` are a `Draw`: two cluster indices and
  a position in each chosen cluster. Each value is reduced modulo the size it is drawn for.
- The annealing acceptance test `exp((new - current) / T) > Math.random()` is a boolean `lucky`
  per iteration. `Math.random()` lies in [0, 1) and `exp(0) = 1`, so a neighbour that scores
  exactly as much as the current clustering is always accepted. Only a worse neighbour depends
  on `lucky`.

Each loop the model covers is a method with loop invariants. Each method is proved equal to a
specification function: `Score`, `ClusterWeight`, `Greedy`, `Neighbour`, `LocalSearchRun`,
`AnnealRun` or `RunScores`. The properties of the source are lemmas about those functions.

Modules, in dependency order:

- `Multisets` and `Sums`: generic lemmas about multisets and about sums over sequences.
- `Graphs`: the instance, clusters and clusterings.
- `WeightEvaluator`: cluster weights.
- `ScoreEvaluator`: the score.
- `GreedyBuilder`: the greedy builder and its sort.
- `PerturbationOperator`: the perturbation.
- `Progress`: the iteration count of a counted loop and the strict-gain test both improvers use.
- `LocalSearchOptimizer`: local search.
- `AnnealingOptimizer`: simulated annealing.
- `ExperimentHarness`: the harness and the `GraphOptimization` class.
- `Scenarios`: small concrete instances.

`calculateScore` is modelled as written. For each pair of members it adds the weights stored under
both orderings, so an edge stored both ways is counted twice (`ScoreEvaluator.BothOrderingsCounted`).

The claim that the clusters weigh as much as all nodes together exactly when every node was
placed fails for nodes of weight 0. The code drops a node that no cluster admits, whatever its
weight, so the "only if" direction holds only when every node weighs more than 0.
`Scenarios.ZeroWeightNodeDropped` exhibits a node of weight 0 that is dropped while the totals agree.

## Model

| member | source | states |
|---|---|---|
| WeightEvaluator.CalculateWeights | GraphOptimization.java:281-291 | one weight per cluster, in order; each is the sum of its members' node weights, an id missing from the map counting 0 |
| WeightEvaluator.ClusterWeightPermutation | GraphOptimization.java:283-288 | a cluster's weight depends only on its members, not on their order |
| WeightEvaluator.ClusterWeightNonNegative | GraphOptimization.java:284-288 | with non-negative node weights every cluster weighs at least 0 |
| WeightEvaluator.TotalWeightFlat | GraphOptimization.java:281-291 | the cluster weights add up to the weight of all members of all clusters taken together |
| WeightEvaluator.AppendWeight | GraphOptimization.java:202-203 | appending a node to a cluster adds exactly that node's weight (the builder's running weight update) |
| ScoreEvaluator.CalculateScore | GraphOptimization.java:174-187 | the triple loop returns the sum over clusters and over index pairs i < j of the weights stored under (c[i], c[j]) and (c[j], c[i]) |
| ScoreEvaluator.PairWeightBothOrders | GraphOptimization.java:179-181 | a pair contributes its weight under both orderings, a missing entry counting 0, and the contribution is symmetric |
| ScoreEvaluator.BothOrderingsCounted | GraphOptimization.java:180-181 | an edge stored as (a, b) with weight v and as (b, a) with weight w adds v + w to the score |
| ScoreEvaluator.ScoreOfSingletons | GraphOptimization.java:176-178 | clusters of at most one member contribute nothing; an empty clustering scores 0 |
| ScoreEvaluator.ScoreNonNegative | GraphOptimization.java:174-187 | with non-negative edge weights every clustering scores at least 0 |
| ScoreEvaluator.ClusterScoreAppend | GraphOptimization.java:177-183 | appending x to a cluster adds the weights of x's pairs with the old members |
| ScoreEvaluator.ClusterScoreRemove | GraphOptimization.java:177-183 | removing a member from anywhere in a cluster subtracts exactly its pairs with the others |
| ScoreEvaluator.ClusterScorePermutation | GraphOptimization.java:177-183 | a cluster's score depends only on its members, not on their order |
| ScoreEvaluator.ScoreClusterOrder | GraphOptimization.java:176 | the score does not depend on the order of the clusters |
| ScoreEvaluator.ScoreMemberOrder | GraphOptimization.java:176-184 | the score does not depend on the order of the members within each cluster |
| GreedyBuilder.InsertPermutation | GraphOptimization.java:194 | inserting a node into the sorted list adds exactly that node |
| GreedyBuilder.SortPermutation | GraphOptimization.java:193-194 | the sort returns a permutation of the nodes in iteration order |
| GreedyBuilder.SortDescending | GraphOptimization.java:194 | the sorted list is in non-increasing order of node weight |
| GreedyBuilder.SortStable | GraphOptimization.java:194 | nodes of equal weight keep their iteration order (List.sort is stable) |
| GreedyBuilder.FirstFit | GraphOptimization.java:200-206 | returns the first cluster index that admits the weight (w + weight <= U, and w + weight >= L unless the cluster is empty), or None exactly when no cluster does |
| GreedyBuilder.GreedyHeuristic | GraphOptimization.java:189-209 | the nested loop with `break` returns two clusters, equal to the specification `Greedy` (sort, then first fit per node) |
| GreedyBuilder.PlaceFirstFit | GraphOptimization.java:200-206 | a node joins the first admitting cluster and nothing else changes; it is dropped if and only if no cluster admits it |
| GreedyBuilder.PlaceKeepsInvariants | GraphOptimization.java:201-203 | one placement keeps the running weights equal to the clusters' weights and keeps every non-empty cluster at most U |
| GreedyBuilder.BuildInvariants | GraphOptimization.java:196-207 | after any number of nodes, the running weights equal the clusters' weights, every non-empty cluster weighs at most U, and every cluster of two or more members at least L |
| GreedyBuilder.PlaceConserves | GraphOptimization.java:200-206 | one placement puts the node in exactly one cluster or among the dropped |
| GreedyBuilder.BuildConserves | GraphOptimization.java:196-207 | the clusters together with the dropped nodes are exactly the visited nodes, each once |
| GreedyBuilder.BuildWeightSum | GraphOptimization.java:196-207 | the cluster weights plus the dropped nodes' weights equal the weight of all visited nodes |
| GreedyBuilder.GreedyBounds | GraphOptimization.java:190-206 | the builder returns exactly two clusters; each is empty or weighs at most U, and weighs at least L once it holds two nodes |
| GreedyBuilder.GreedyPlacesOnce | GraphOptimization.java:193-206 | every node of the map is placed at most once, and only nodes of the map are placed |
| GreedyBuilder.DroppedAreNodes | GraphOptimization.java:193-206 | every dropped node is a node of the map |
| GreedyBuilder.GreedyWeightBound | GraphOptimization.java:191-203 | with non-negative node weights the clusters weigh at most all nodes together, and exactly that when every node was placed |
| GreedyBuilder.GreedyFullWeightMeansAllPlaced | GraphOptimization.java:191-203 | with positive node weights, clusters weighing as much as all nodes means every node was placed |
| PerturbationOperator.RemoveFirst | GraphOptimization.java:268-269 | `List.remove` drops exactly one occurrence of a present member and leaves a list without it unchanged |
| PerturbationOperator.RemoveFirstSplits | GraphOptimization.java:268-269 | the occurrence `List.remove` drops is the first one: the result is the list without the element at the first position holding the member, the rest kept in order |
| PerturbationOperator.ModifyClusters | GraphOptimization.java:250-279 | returns the swapped copy when every cluster then weighs within [L, U], else the input (`Neighbour`) |
| PerturbationOperator.SwapShape | GraphOptimization.java:258-272 | a swap happens only between two non-empty clusters at different indices that differ in content; it keeps the number and sizes of the clusters and touches no other cluster |
| PerturbationOperator.SameIndexIsNoOp | GraphOptimization.java:258-264 | drawing the same cluster index twice returns the input |
| PerturbationOperator.ReplaceTwo | GraphOptimization.java:268-271 | replacing two clusters by two holding the same members in all keeps the members of the clustering |
| PerturbationOperator.SwapConservesNodes | GraphOptimization.java:264-272 | the swap keeps the multiset of all nodes |
| PerturbationOperator.ExchangeWeight | GraphOptimization.java:268-271 | removing x and appending y changes a cluster's weight by weight(y) - weight(x) |
| PerturbationOperator.SwapConservesWeight | GraphOptimization.java:264-272 | the swap keeps the total weight of the clustering |
| PerturbationOperator.NeighbourFeasible | GraphOptimization.java:274-278 | the result is the input or the swapped copy, and the copy only when every cluster, an empty one included, weighs within [L, U]; a feasible input gives a feasible result |
| PerturbationOperator.NeighbourConserves | GraphOptimization.java:250-279 | the result has as many clusters as the input, the same nodes and the same total weight |
| LocalSearchOptimizer.LocalSearch | GraphOptimization.java:211-225 | the loop ends in the state of `LocalSearchRun`; the best score is the score of the best clustering and at least the initial score; with iterations <= 0 it is the initial clustering and score |
| LocalSearchOptimizer.LocalSearchInvariant | GraphOptimization.java:212-223 | after every iteration, the best score is the score of the best clustering and at least the initial score |
| LocalSearchOptimizer.LocalSearchStep | GraphOptimization.java:215-222 | an iteration never lowers the best score; it changes the state only to a neighbour that scores strictly more, and always takes such a neighbour |
| LocalSearchOptimizer.StepMonotone | GraphOptimization.java:219-222 | a single step never lowers the best score |
| LocalSearchOptimizer.LocalSearchMonotone | GraphOptimization.java:215-223 | the best score after k iterations is at most the best score after any m >= k iterations |
| LocalSearchOptimizer.LocalSearchConserves | GraphOptimization.java:215-223 | the best clustering keeps the initial nodes and total weight, and stays feasible when the initial clustering is feasible |
| AnnealingOptimizer.SimulatedAnnealing | GraphOptimization.java:227-248 | the loop ends in the state of `AnnealRun` and returns its best score, which is at least the initial score |
| AnnealingOptimizer.AnnealInvariant | GraphOptimization.java:228-244 | after every iteration, the current score is the score of the current clustering, and the best score is at least the current and the initial score |
| AnnealingOptimizer.LuckDecidesOnlyWorse | GraphOptimization.java:237-240 | a neighbour scoring at least as much is accepted whatever the random test says; a worse one is accepted exactly when the test succeeds |
| AnnealingOptimizer.RunStepBest | GraphOptimization.java:241-243 | one iteration never lowers the best score |
| AnnealingOptimizer.AnnealBestMonotone | GraphOptimization.java:233-246 | the best score after k iterations is at most the best score after any m >= k iterations |
| AnnealingOptimizer.AnnealBestBounds | GraphOptimization.java:233-246 | the best score after n iterations is at least the current score after every k <= n iterations |
| AnnealingOptimizer.AnnealBestAttained | GraphOptimization.java:233-246 | the best score after n iterations is the current score after some k <= n iterations |
| AnnealingOptimizer.AnnealConserves | GraphOptimization.java:233-246 | the current clustering keeps the initial nodes and total weight, and stays feasible when the initial clustering is feasible |
| AnnealingOptimizer.UnluckyAnnealClimbs | GraphOptimization.java:237-243 | when the random test never succeeds, the best score always equals the current score |
| ExperimentHarness.NamesSelect | GraphOptimization.java:65-70 | the three names runAndDisplayResults passes select greedy, local search and annealing |
| ExperimentHarness.Best | GraphOptimization.java:87 | the best of a list of scores is its maximum, and 0 for an empty list |
| ExperimentHarness.RunScores | GraphOptimization.java:60-79 | runs <= 0 records nothing; otherwise exactly `runs` scores are recorded, one per run |
| ExperimentHarness.RunOnce | GraphOptimization.java:61-73 | a run rebuilds the greedy clustering and records the score of the named algorithm on it; an unknown name is reported |
| ExperimentHarness.RecordRun | GraphOptimization.java:60-79 | the score of one run extends the scores recorded so far by the next run's score |
| ExperimentHarness.ExecuteAndDisplay | GraphOptimization.java:59-89 | appends one score per run and returns their maximum (0 when runs <= 0); an unknown name throws, and only when runs > 0, with nothing appended |
| ExperimentHarness.GreedyRunsAgree | GraphOptimization.java:61-66 | every greedy run records the score of the greedy clustering |
| ExperimentHarness.RunAtLeastGreedy | GraphOptimization.java:61-70 | every run of every algorithm records at least the greedy score it starts from |
| ExperimentHarness.BestAtLeastGreedy | GraphOptimization.java:60-87 | with at least one run, every algorithm's best score is at least the greedy score, and greedy's is exactly that |
| ExperimentHarness.RunExperiments | GraphOptimization.java:40-47 | each of the three experiments records its runs' scores into an empty list; greedy's best is the greedy score, the other two are at least that, and all are 0 without runs |
| ExperimentHarness.GraphOptimization.constructor | GraphOptimization.java:5-15 | empty maps, both bounds 0, empty score lists |
| ExperimentHarness.GraphOptimization.SetNodes | GraphOptimization.java:17-19 | replaces the node map and nothing else |
| ExperimentHarness.GraphOptimization.SetEdges | GraphOptimization.java:21-23 | replaces the edge map and nothing else |
| ExperimentHarness.GraphOptimization.SetLimits | GraphOptimization.java:25-28 | sets L and U and nothing else |
| ExperimentHarness.GraphOptimization.RunAndDisplayResults | GraphOptimization.java:30-57 | clears the three score lists, then fills each with its algorithm's run scores; returns the three best scores; the instance is unchanged |
| Scenarios.EqualWeightsKeepOrder | GraphOptimization.java:193-194 | four nodes of equal weight are sorted in iteration order |
| Scenarios.TwoByTwo | GraphOptimization.java:196-206 | four nodes of weight 5 under bounds [5, 10] fill the first cluster with the first two and the second with the last two |
| Scenarios.PairScore | GraphOptimization.java:177-182 | a two-member cluster scores the pair's weights under both orderings |
| Scenarios.GreedyPairsHeavyEdges | GraphOptimization.java:189-209 | iterating A, B, C, D, the builder pairs A with B and C with D, scoring 20 |
| Scenarios.GreedyDependsOnOrder | GraphOptimization.java:189-209 | iterating A, C, B, D on the same instance, the builder pairs A with C and B with D, scoring 1: the result depends on the map's iteration order |
| Scenarios.ZeroWeightNodeDropped | GraphOptimization.java:196-207 | a node of weight 0 that no cluster admits is dropped although the clusters weigh as much as all nodes together |

## Left out

- Timing with `System.nanoTime`, the elapsed seconds, and the `times*` lists: these are clock readings in floating point.
- Average score, standard deviation (`calculateStdDev`) and average time: floating-point statistics. The model returns only the best score.
- Annealing temperature, its cooling by 0.95 and `Math.exp`: floating point. The model replaces the test by the boolean `lucky` per iteration. The model fixes only what follows from `exp(0) = 1`, namely that ties are accepted.
- `new Random()` and `Math.random()`: the drawn values are inputs of the model, as `Draw` and `Trial`.
- Report text: `printAveragedResults`, `displayClusterDetails` (which looks edges up differently, with `else if`) and the string building in `runAndDisplayResults` and `executeAndDisplay`. These are output formatting, not logic.
- The six getters of the score and time lists: they are plain reads of the class fields.
- 32-bit `int` overflow in weights and scores: the model uses unbounded integers.
- Aliasing: clusterings are values. The copy `modifyClusters` makes before its swap, and the sharing of lists between callers, are implicit.
- PerturbationOperator.ModifyClusters: requires at least one cluster, because `nextInt(0)` throws on an empty clustering. Every caller passes the builder's two clusters.
- LocalSearchOptimizer.LocalSearch: also returns the best clustering, which the source keeps local, so that the contract can relate score and clustering.
- ExperimentHarness.ExecuteAndDisplay: the scores of earlier calls are a parameter, and the exception is an `Outcome` value.
- GreedyBuilder.GreedyFullWeightMeansAllPlaced: requires every node weight to be positive. With a weight of 0 the direction fails (`Scenarios.ZeroWeightNodeDropped`).
- No concrete instance of the perturbation is worked out. Its properties are proved for all inputs only.
- GraphOptimizationGUI.java and SimpleChart.java are not part of this model: they are user interface and drawing.
