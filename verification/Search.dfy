/**
 * The searches of Sources/MazeSolver/Maze.swift: `findLowestScoringPaths`, a best-first search
 * over (position, direction) states driven by a min-priority queue, and `findShortestPath`,
 * which keeps the first of the lowest-scoring paths.
 */
module Search {
  import opened Wrappers
  import opened Directions
  import opened Positions
  import opened Squares
  import opened Settings
  import opened Paths
  import opened StateSpace
  import opened PriorityQueues
  import opened SearchTheory

  /** When start and end coincide: the one queued entry is still waiting, or it has been found. */
  ghost predicate SameEnds(P: Problem, items: multiset<Scored<Node>>, lowest: Option<int>, found: seq<seq<Position>>)
  {
    || (items == multiset{InitialEntry(P)} && lowest == None && found == [])
    || (items == multiset{} && lowest == Some(0) && found == [[P.start]])
  }

  /**
   * What the empty queue leaves: paths were found exactly when the end is reachable, and no
   * walk to the end scores below the lowest score found.
   */
  lemma Finished(P: Problem, visited: map<State, int>, lowest: Option<int>, found: seq<seq<Position>>)
    requires PositiveCosts(P.settings)
    requires Invariant(P, multiset{}, visited, lowest, found)
    requires P.start == P.end ==> SameEnds(P, multiset{}, lowest, found)
    ensures found == [] <==> !Reachable(P)
    ensures forall p :: WalkTo(P.grid, P.start, P.end, p) ==> AtMost(lowest, PathCost(p, P.settings))
    ensures P.start == P.end ==> lowest == Some(0) && found == [[P.start]]
  {
    forall p | WalkTo(P.grid, P.start, P.end, p)
      ensures AtMost(lowest, PathCost(p, P.settings))
    {
      Optimal(P, visited, lowest, found, p);
    }
    if found != [] {
      assert WalkTo(P.grid, P.start, P.end, found[0]);
    }
  }

  /** `Array.first`. */
  function First<T>(s: seq<T>): (r: Option<T>)
    ensures r.None? <==> s == []
    ensures r.Some? ==> r.value == s[0]
  {
    if s == [] then None else Some(s[0])
  }

  /**
   * `findLowestScoringPaths(start:end:in:settings:)`: nothing when the end cannot be reached;
   * otherwise the lowest score of a walk from the start square to the end square, with paths
   * that each reach the end at exactly that score.
   */
  method FindLowestScoringPaths(startSquare: MazeSquare, endSquare: MazeSquare, grid: Grid, settings: MazeSettings)
    returns (r: Option<LowestScoringPathsResult>)
    requires PositiveCosts(settings)
    ensures r.None? <==> !Reachable(Problem(grid, startSquare.position, endSquare.position, settings))
    ensures r.Some? ==> |r.value.pathResults| > 0
    ensures r.Some? ==> forall i :: 0 <= i < |r.value.pathResults| ==>
      && WalkTo(grid, startSquare.position, endSquare.position, r.value.pathResults[i].path)
      && PathCost(r.value.pathResults[i].path, settings) == r.value.score
    ensures r.Some? ==> forall p :: WalkTo(grid, startSquare.position, endSquare.position, p) ==>
      r.value.score <= PathCost(p, settings)
    ensures startSquare.position == endSquare.position ==>
      r == Some(LowestScoringPathsResult(0, [PathResult([startSquare.position])]))
  {
    ghost var P := Problem(grid, startSquare.position, endSquare.position, settings);
    var priorityQueue := new PriorityQueue<Node>();
    var initialQueueItem := Node([startSquare.position], State(startSquare.position, settings.initialDirection));
    priorityQueue.Enqueue(initialQueueItem, 0);

    var visited: map<State, int> := map[];
    var initialState := State(startSquare.position, settings.initialDirection);
    visited := visited[initialState := 0];

    // `Int.max` in the source: no lowest score yet.
    var lowestScore: Option<int> := None;
    var lowestScoringPaths: seq<seq<Position>> := [];

    InitialInvariant(P);
    ghost var bound := Bound(P);
    while true
      invariant priorityQueue.Valid()
      invariant Invariant(P, priorityQueue.Items(), visited, lowestScore, lowestScoringPaths)
      invariant P.start == P.end ==> SameEnds(P, priorityQueue.Items(), lowestScore, lowestScoringPaths)
      decreases Measure(priorityQueue.Items(), bound)
    {
      ghost var queued := priorityQueue.Items();
      var current := priorityQueue.Dequeue();
      if current.None? {
        break;
      }
      var currentScore := current.value.score;
      var currentPath := current.value.element.path;
      var currentState := current.value.element.state;

      ghost var e := current.value;
      ghost var rest := priorityQueue.Items();
      assert queued == rest + multiset{e};
      Dequeued(P, rest, e, visited, lowestScore, lowestScoringPaths);
      MeasureAdd(rest, e, bound);

      if lowestScore.Some? && currentScore > lowestScore.value {
        Pruned(P, rest, e, visited, lowestScore, lowestScoringPaths);
        continue;
      }

      if currentState.position == endSquare.position {
        ghost var lowest, found := lowestScore, lowestScoringPaths;
        if lowestScore.None? || currentScore < lowestScore.value {
          lowestScore := Some(currentScore);
          lowestScoringPaths := [currentPath];
        } else if currentScore == lowestScore.value {
          lowestScoringPaths := lowestScoringPaths + [currentPath];
        }
        ReachedEnd(P, rest, e, visited, lowest, found, lowestScore, lowestScoringPaths);
        continue;
      }

      EntryScoreBound(P, visited, e);
      visited := RelaxMoves(priorityQueue, visited, current.value, grid, settings, P, lowestScore, lowestScoringPaths, bound);
    }

    Finished(P, visited, lowestScore, lowestScoringPaths);

    if |lowestScoringPaths| == 0 {
      return None;
    }

    var pathResults := seq(|lowestScoringPaths|, i requires 0 <= i < |lowestScoringPaths| => PathResult(lowestScoringPaths[i]));
    r := Some(LowestScoringPathsResult(lowestScore.value, pathResults));
    assert lowestScoringPaths[0] in lowestScoringPaths;
    if P.start == P.end {
      assert pathResults == [PathResult([P.start])];
    }
  }

  /**
   * The `for nextDirection in Direction.allCases` loop of `findLowestScoringPaths`: each move
   * out of the dequeued entry is relaxed in turn. Afterwards the entry's state is covered
   * again, and the queue weighs less than before the entry was taken out.
   */
  method RelaxMoves(priorityQueue: PriorityQueue<Node>, visited: map<State, int>, current: Scored<Node>,
                    grid: Grid, settings: MazeSettings, ghost P: Problem, ghost lowest: Option<int>,
                    ghost found: seq<seq<Position>>, ghost bound: int)
    returns (visited': map<State, int>)
    requires priorityQueue.Valid()
    requires PositiveCosts(settings) && P.grid == grid && P.settings == settings && bound == Bound(P)
    requires Pending(P, priorityQueue.Items(), visited, lowest, found, current)
    requires current.element.state.position != P.end
    requires current.score <= bound
    modifies priorityQueue
    ensures priorityQueue.Valid()
    ensures Invariant(P, priorityQueue.Items(), visited', lowest, found)
    ensures Measure(priorityQueue.Items(), bound) < Measure(old(priorityQueue.Items()), bound) + Weight(current.score, bound)
    ensures AllMovesRelaxed(P, visited, visited', old(priorityQueue.Items()), priorityQueue.Items(), current)
  {
    ghost var rest := priorityQueue.Items();
    ghost var unit := Weight(current.score + 1, bound);
    visited' := visited;
    StartExpanding(P, current, visited');
    for i := 0 to |AllCases|
      invariant priorityQueue.Valid()
      invariant Pending(P, priorityQueue.Items(), visited', lowest, found, current)
      invariant RelaxedAll(P, visited', current, i)
      invariant Measure(priorityQueue.Items(), bound) <= Measure(rest, bound) + Copies(i, unit)
      invariant current.score >= bound ==> priorityQueue.Items() == rest
      invariant RelaxedSoFar(P, visited, visited', rest, priorityQueue.Items(), current)
      invariant StoredAndQueued(P, visited, visited', priorityQueue.Items() - rest, current, i)
      invariant Untouched(visited, visited', current, i)
      invariant priorityQueue.Items() == rest + Passing(P, visited, current, i)
    {
      var nextDirection := AllCases[i];
      ghost var before, queued := visited', priorityQueue.Items();
      visited' := RelaxMove(priorityQueue, visited', current, nextDirection, grid, settings, P, lowest, found, i, bound);
      RelaxedOneMore(P, visited, before, visited', rest, queued, priorityQueue.Items(), current, nextDirection);
      QueuedOneMore(P, visited, before, visited', rest, queued, priorityQueue.Items(), current, i);
      StoredOneMore(P, visited, before, visited', rest, queued, priorityQueue.Items(), current, i);
    }
    Expansion(P, priorityQueue.Items(), current, visited', lowest, found);
    assert AllMovesRelaxed(P, visited, visited', rest, priorityQueue.Items(), current);
    if current.score < bound {
      MovesWeighLess(current.score, bound);
    }
  }

  /**
   * One pass of that loop: when the move in `nextDirection` lands on a square of the grid that
   * is not a wall, and its new score is no higher than the one stored for the state it leads
   * to (none stored counts as `Int.max`), it stores that score and queues the extended path.
   */
  method RelaxMove(priorityQueue: PriorityQueue<Node>, visited: map<State, int>, current: Scored<Node>,
                   nextDirection: Direction, grid: Grid, settings: MazeSettings, ghost P: Problem,
                   ghost lowest: Option<int>, ghost found: seq<seq<Position>>, ghost i: nat, ghost bound: int)
    returns (visited': map<State, int>)
    requires priorityQueue.Valid()
    requires PositiveCosts(settings) && P.grid == grid && P.settings == settings && bound == Bound(P)
    requires Pending(P, priorityQueue.Items(), visited, lowest, found, current)
    requires i < |AllCases| && nextDirection == AllCases[i]
    requires RelaxedAll(P, visited, current, i)
    modifies priorityQueue
    ensures priorityQueue.Valid()
    ensures Pending(P, priorityQueue.Items(), visited', lowest, found, current)
    ensures RelaxedAll(P, visited', current, i + 1)
    ensures Measure(priorityQueue.Items(), bound) <= Measure(old(priorityQueue.Items()), bound) + Weight(current.score + 1, bound)
    ensures current.score >= bound ==> priorityQueue.Items() == old(priorityQueue.Items())
    ensures MoveRelaxed(P, visited, visited', old(priorityQueue.Items()), priorityQueue.Items(), current, nextDirection)
  {
    visited' := visited;
    var currentScore := current.score;
    var currentPath := current.element.path;
    var currentState := current.element.state;
    var offset := Offset(nextDirection);
    var nextPosition := Position(currentState.position.x + offset.1, currentState.position.y + offset.0);

    var nextSquare := SquareAt(nextPosition, grid);
    assert nextPosition == Neighbour(currentState.position, nextDirection);
    if nextSquare.None? || nextSquare.value.squareType.isWall {
      // The `guard ... else { continue }` of the source: an off-grid or wall square.
      SkipClosed(P, current, visited, i, nextDirection);
    } else {
      var rotationCost := if nextDirection == currentState.direction then 0 else settings.rotationCost;
      var newScore := currentScore + settings.moveCost + rotationCost;
      var nextState := State(nextPosition, nextDirection);

      if nextState !in visited || newScore <= visited[nextState] {
        ghost var n := Scored(newScore, Node(currentPath + [nextPosition], nextState));
        assert n == Successor(current, nextDirection, settings);
        Relaxed(P, priorityQueue.Items(), current, visited, lowest, found, i, nextDirection, n);
        SuccessorWeight(P, visited[nextState := newScore], priorityQueue.Items(), current, nextDirection, n);
        visited' := visited[nextState := newScore];
        var queueItem := Node(currentPath + [nextPosition], nextState);
        priorityQueue.Enqueue(queueItem, newScore);
      } else {
        SkipWorse(P, current, visited, i, nextDirection);
      }
    }
  }

  /**
   * `findShortestPath(start:end:in:settings:)`: the first lowest-scoring path, a walk to the
   * end that no other walk beats; without a rotation cost it also has the fewest steps.
   */
  method FindShortestPath(startSquare: MazeSquare, endSquare: MazeSquare, grid: Grid, settings: MazeSettings)
    returns (r: Option<PathResult>)
    requires PositiveCosts(settings)
    ensures r.None? <==> !Reachable(Problem(grid, startSquare.position, endSquare.position, settings))
    ensures r.Some? ==> WalkTo(grid, startSquare.position, endSquare.position, r.value.path)
    ensures r.Some? ==> forall p :: WalkTo(grid, startSquare.position, endSquare.position, p) ==>
      PathCost(r.value.path, settings) <= PathCost(p, settings)
    ensures r.Some? && settings.rotationCost == 0 ==>
      forall p :: WalkTo(grid, startSquare.position, endSquare.position, p) ==> r.value.Steps() <= |p| - 1
    ensures startSquare.position == endSquare.position ==> r == Some(PathResult([startSquare.position]))
  {
    var result := FindLowestScoringPaths(startSquare, endSquare, grid, settings);
    if result.None? {
      return None;
    }
    r := First(result.value.pathResults);
    if settings.rotationCost == 0 {
      forall p | WalkTo(grid, startSquare.position, endSquare.position, p)
        ensures r.value.Steps() <= |p| - 1
      {
        CheaperIsShorter(r.value.path, p, settings);
      }
    }
  }
}
