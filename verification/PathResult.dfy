/**
 * Search results (Sources/MazeSolver/PathResult.swift and
 * Sources/MazeSolver/LowestScoringPathsResult.swift).
 */
module Paths {
  import opened Positions

  /** A path from the start to the end, both included. */
  datatype PathResult = PathResult(path: seq<Position>)
  {
    /** `steps`: the number of moves along the path. */
    function Steps(): nat
    {
      if |path| < 2 then 0 else |path| - 1
    }
  }

  /** The lowest score together with every path that achieves it. */
  datatype LowestScoringPathsResult = LowestScoringPathsResult(score: int, pathResults: seq<PathResult>)

  /** `steps` is `max(0, count - 1)`: never negative and, for a non-empty path, below the count. */
  lemma StepsIsMaxZero(r: PathResult)
    ensures r.Steps() == if |r.path| == 0 then 0 else |r.path| - 1
    ensures |r.path| > 0 ==> r.Steps() < |r.path|
  {
  }

  /** A two-position path has one step and a three-position path two. */
  lemma StepsExamples(a: Position, b: Position, c: Position)
    ensures PathResult([a, b]).Steps() == 1
    ensures PathResult([a, b, c]).Steps() == 2
    ensures PathResult([a]).Steps() == 0
    ensures PathResult([]).Steps() == 0
  {
  }
}
