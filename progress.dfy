/**
 Two small notions both iterative improvers share: how often a counted loop
 runs, and when a score is an improvement on the best score so far.
 */
module Progress {
  /** The number of times `for (i = 0; i < n; i++)` runs. */
  function Iterations(n: int): nat
  {
    if n > 0 then n else 0
  }

  /** Whether `newScore` beats the best score so far: only a strict gain does. */
  predicate Improves(newScore: int, bestScore: int)
  {
    newScore > bestScore
  }
}
