# MazeSolver in Dafny

A Dafny model of the MazeSolver library's core. A `Maze` is a grid of squares: rows of
`MazeSquare`s, possibly of different lengths. It has a start square, an end square and
`MazeSettings`: a move cost, a rotation cost and the direction faced at the start. The
library:

- builds a maze from rows of characters, or from a grid with an optional start and end;
- finds every lowest-scoring path from the start to the end;
- finds one shortest path.

The search walks over (position, direction) states. It uses a binary min-heap priority queue
and a `visited` dictionary holding the best score stored for each state. Moving onto a square
that is on the grid and is not a wall costs `moveCost`, plus `rotationCost` when the move's
direction differs from the one currently faced.

The modules follow the source files:

| module | file | models |
|---|---|---|
| `Directions` | Direction.dfy | `Direction`, `allCases`, the raw values and `offset` |
| `Positions` | Position.dfy | `Position` and `isValid(in:)` |
| `Settings` | MazeSettings.dfy | `MazeSettings` and `.default` |
| `Squares` | MazeSquare.dfy | `MazeSquareType`, `MazeSquare`, `State` |
| `Paths` | PathResult.dfy | `PathResult.steps`, `LowestScoringPathsResult` |
| `PriorityQueues` | PriorityQueue.dfy | the heap, as a class whose methods update its `heap` field |
| `StateSpace` | StateSpace.dfy | `square(at:in:)`; also walks and their scores, the reference definition the search is judged by |
| `Mazes` | Maze.dfy | `MazeError`, `filterSquares(in:_:)`, `init(grid:start:end:settings:)`, `init(rows:settings:)` |
| `SearchTheory` | SearchTheory.dfy | the search's loop invariant and the lemmas that carry it from step to step; optimality; termination |
| `Search` | Search.dfy | `findLowestScoringPaths` and `findShortestPath` as imperative methods over the priority queue |

The search's own specification is written against `StateSpace`. `WalkTo` is a walk from the
start to the end over open squares. `PathCost` is the score the search gives such a walk.

`FindLowestScoringPaths` is proved to return nothing exactly when no walk reaches the end.
Otherwise it returns walks to the end, each costing exactly the returned score, and no walk
to the end costs less than that score.

The proof does not depend on the order in which the queue hands out entries; it rests on
an invariant kept by every iteration (see `SearchTheory.Invariant`). Termination is proved
with a measure. Every queued entry is a duplicate-free walk, so its score is bounded by the
number of states times the dearest move. Each expansion replaces one entry by at most four
entries with higher scores. The queue's weight, a sum of `5^(bound - score)`, therefore
strictly decreases.

## Model

| member | source | states |
|---|---|---|
| Directions.AllCasesComplete | Sources/MazeSolver/Direction.swift:13-25 | `allCases` holds all four directions, each once |
| Directions.OffsetIsUnitStep | Sources/MazeSolver/Direction.swift:27-34 | every offset is one orthogonal unit step |
| Directions.OppositeOffsetsCancel | Sources/MazeSolver/Direction.swift:27-34 | opposite directions' offsets sum to zero |
| Directions.OffsetInjective | Sources/MazeSolver/Direction.swift:27-34 | two directions have the same offset exactly when they are the same direction |
| Directions.RawValueInjective | Sources/MazeSolver/Direction.swift:13-25 | two directions have the same raw character exactly when they are the same direction |
| Positions.InvalidOutsideRows | Sources/MazeSolver/Position.swift:33-42 | a row index outside the grid is invalid |
| Positions.InvalidOutsideOwnRow | Sources/MazeSolver/Position.swift:33-42 | a column index outside its own row is invalid, whatever other rows' lengths |
| Positions.ValidIndexes | Sources/MazeSolver/Position.swift:33-42 | a valid position indexes the grid safely |
| Settings.DefaultSettings | Sources/MazeSolver/MazeSettings.swift:18 | the default settings are move cost 1, rotation cost 0, facing up |
| Settings.InitStoresArguments | Sources/MazeSolver/MazeSettings.swift:43-51 | the initialiser stores its three arguments unchanged |
| Squares.OptionalCapabilitiesDefault | Sources/MazeSolver/MazeSquareType.swift:46-51 | a square type that does not state `isStart`/`isEnd` is neither |
| Squares.SquareDelegatesToType | Sources/MazeSolver/MazeSquare.swift:28-33 | a square is a wall or empty exactly when its type is |
| Paths.StepsIsMaxZero | Sources/MazeSolver/PathResult.swift:23-30 | steps is max(0, count - 1), and below the count for a non-empty path |
| Paths.StepsExamples | Sources/MazeSolver/PathResult.swift:23-30 | paths of 0, 1, 2 and 3 positions have 0, 0, 1 and 2 steps |
| PriorityQueues.RootIsMinimum | Sources/MazeSolver/PriorityQueue.swift:12 | in a heap, no slot scores below the root |
| PriorityQueues.PriorityQueue.constructor | Sources/MazeSolver/PriorityQueue.swift:19-21 | a new queue is an empty heap |
| PriorityQueues.PriorityQueue.IsEmpty | Sources/MazeSolver/PriorityQueue.swift:15-17 | true exactly when no entry is queued |
| PriorityQueues.PriorityQueue.Enqueue | Sources/MazeSolver/PriorityQueue.swift:23-26 | the heap property is kept; the queued entries gain exactly `(score, element)` |
| PriorityQueues.PriorityQueue.Dequeue | Sources/MazeSolver/PriorityQueue.swift:28-37 | an empty queue yields `nil` and is unchanged; otherwise an entry of lowest score is removed and returned, and every other entry stays queued, with the heap property kept |
| PriorityQueues.PriorityQueue.SiftUp | Sources/MazeSolver/PriorityQueue.swift:39-50 | from a heap broken only at `index` towards its parent, restores the heap property and permutes the slots |
| PriorityQueues.PriorityQueue.SiftDown | Sources/MazeSolver/PriorityQueue.swift:52-79 | from a heap broken only at `index` towards its children, restores the heap property and permutes the slots |
| PriorityQueues.PriorityQueue.SwapAt | Sources/MazeSolver/PriorityQueue.swift:81-85 | exchanges two slots and changes nothing else |
| StateSpace.SquareAt | Sources/MazeSolver/Maze.swift:361-367 | `nil` exactly when the position is invalid; otherwise the square at that row and column |
| StateSpace.ExtendWalk | Sources/MazeSolver/Maze.swift:321-342 | one open move extends a walk: the walk now faces the move's direction, its cost grows by the move plus any rotation, and the new state is appended |
| StateSpace.PathCostBounds | Sources/MazeSolver/Maze.swift:335-337 | with positive costs, a walk of n moves scores between n and n times the dearest move |
| StateSpace.PathCostWithoutRotation | Sources/MazeSolver/Maze.swift:335-337 | with no rotation cost, a walk scores `moveCost` per move |
| StateSpace.CheaperIsShorter | Sources/MazeSolver/Maze.swift:251-273 | with no rotation cost, a walk that costs no more has no more moves |
| StateSpace.TrajectoryInAllStates | Sources/MazeSolver/Maze.swift:321-338 | every state on a walk is the initial state or a valid position with some direction |
| Mazes.FilterSquares | Sources/MazeSolver/Maze.swift:369-380 | collects, row after row, exactly the squares each row's filter keeps; every collected square is accepted |
| Mazes.FilteredSquaresFirst | Sources/MazeSolver/Maze.swift:369-380 | nothing is collected exactly when no square is accepted; otherwise the first collected square is the first accepted square in row-major order |
| Mazes.Resolve | Sources/MazeSolver/Maze.swift:59-79 | a given position succeeds exactly when it is valid, yielding the square there, and otherwise fails with `invalidPosition` of that position; without a position, the first accepted square is taken, and the missing-square error is thrown exactly when none is accepted |
| Mazes.Init | Sources/MazeSolver/Maze.swift:51-82 | succeeds exactly when both the start and the end resolve, keeping the grid and settings and taking the resolved squares; a start that fails is reported first, and otherwise the end's failure |
| Mazes.GivenPositionsAccepted | Sources/MazeSolver/Maze.swift:59-74 | valid given start and end positions are accepted, with the squares at those positions |
| Mazes.InvalidStartWins | Sources/MazeSolver/Maze.swift:59-63 | an invalid start position is reported before anything about the end |
| Mazes.InvalidEndReported | Sources/MazeSolver/Maze.swift:70-74 | once the start resolves, an invalid end position is reported |
| Mazes.ScannedStartAndEnd | Sources/MazeSolver/Maze.swift:64-78 | when no start is marked, `noStart` is thrown; when a start is marked but no end, `noEnd`; otherwise start and end are the first marked squares in row-major order |
| Mazes.GivenPositionsKept | Sources/MazeSolver/Maze.swift:51-82 | in a grid whose squares record their own positions, a given start and end keep those positions |
| Mazes.BuiltGridSquares | Sources/MazeSolver/Maze.swift:138-151 | the grid built from rows has the rows' shape; the square at (x, y) records position (x, y) and has the type of the character there |
| Mazes.FromRows | Sources/MazeSolver/Maze.swift:135-154 | fails with `unknownSquareType` exactly when some character has no square type; otherwise scans the built grid for start and end |
| Mazes.ResultNeverUnknown | Sources/MazeSolver/Maze.swift:51-82 | building from a grid never throws `unknownSquareType` |
| SearchTheory.InitialInvariant | Sources/MazeSolver/Maze.swift:281-299 | the queue holding only the start, `visited` holding only the start state at 0, and nothing found satisfies the loop invariant |
| SearchTheory.Dequeued | Sources/MazeSolver/Maze.swift:301-304 | taking any entry out of the queue leaves only that entry's state possibly uncovered |
| SearchTheory.Pruned | Sources/MazeSolver/Maze.swift:306-308 | skipping an entry that scores above the lowest score keeps the invariant |
| SearchTheory.ReachedEnd | Sources/MazeSolver/Maze.swift:310-319 | at the end, a lower score replaces the paths found, an equal score appends its path, and the invariant is kept |
| SearchTheory.SuccessorOk | Sources/MazeSolver/Maze.swift:335-342 | the extended path is a duplicate-free walk scored by its cost, in a state other than the one it leaves |
| SearchTheory.Relaxed | Sources/MazeSolver/Maze.swift:340-343 | storing the new score and queueing the extended path keeps the in-progress invariant and records the move as relaxed |
| SearchTheory.Expansion | Sources/MazeSolver/Maze.swift:321-345 | once all four moves are relaxed, the expanded state is covered and the invariant holds again |
| SearchTheory.Optimal | Sources/MazeSolver/Maze.swift:301-346 | with the queue empty, a lowest score has been found and is no more than the cost of any walk to the end |
| SearchTheory.EntryScoreBound | Sources/MazeSolver/Maze.swift:337-343 | every queued score lies between 0 and the number of states times the dearest move |
| SearchTheory.SuccessorWeight | Sources/MazeSolver/Maze.swift:340-343 | an entry that is still expanded scores below the bound, and queueing its successor adds at most the weight of one higher score |
| SearchTheory.MeasureAdd | Sources/MazeSolver/Maze.swift:301 | a queue's weight is additive over its entries |
| SearchTheory.MovesWeighLess | Sources/MazeSolver/Maze.swift:321 | four entries scoring one higher weigh less than the entry they replace |
| Search.Finished | Sources/MazeSolver/Maze.swift:346-354 | once the queue is empty, paths were found exactly when the end is reachable, and none beats the lowest score |
| Search.First | Sources/MazeSolver/Maze.swift:268-270 | `nil` exactly for an empty array, otherwise its first element |
| Search.FindLowestScoringPaths | Sources/MazeSolver/Maze.swift:275-355 | `nil` exactly when no walk reaches the end; otherwise a non-empty list of walks to the end, each costing the returned score, and no walk to the end costs less; the start on the end yields score 0 and the one-position path |
| Search.RelaxMoves | Sources/MazeSolver/Maze.swift:321-345 | after all four moves: the queue gains exactly the extended paths of the moves that pass the `<=` test against the scores stored before, each once; every open move whose new score is no higher than the one stored before (none stored counting as `Int.max`) has that score stored and its extended path queued; every open move's target is stored no higher than the entry's score plus the move; no stored score went up; only such targets changed, each to the entry's score plus its move; only their successors were queued; the heap and the loop invariant hold, and the queue weighs less than before the entry was dequeued |
| Search.RelaxMove | Sources/MazeSolver/Maze.swift:322-344 | one move: when its target is on the grid, not a wall, and the new score is no higher than the stored one (none stored counting as `Int.max`), exactly that score is stored and exactly the extended path is queued; otherwise neither `visited` nor the queue changes; the in-progress invariant is kept |
| SearchTheory.RelaxedOneMore | Sources/MazeSolver/Maze.swift:321-344 | relaxing one more move keeps the facts that no stored score went up, that only targets of moves changed, and that only their successors were queued |
| SearchTheory.StoredOneMore | Sources/MazeSolver/Maze.swift:321-344 | relaxing the next move in the order of `allCases` stores and queues it when it passes the `<=` test, keeps what earlier moves stored and queued, and leaves the targets of later moves untouched |
| SearchTheory.QueuedOneMore | Sources/MazeSolver/Maze.swift:340-344 | relaxing the next move in the order of `allCases` adds exactly its extended path to the queue when it passes the `<=` test against the scores stored before the first move, and nothing otherwise |
| Search.FindShortestPath | Sources/MazeSolver/Maze.swift:251-273 | `nil` exactly when no walk reaches the end; otherwise a walk to the end that no walk beats, which with no rotation cost also has the fewest steps; the start on the end yields the one-position path |

## Left out

- Reading a maze from text or a file is left out. `init(input:settings:)` splits text on `"\n"` and trims each row with Foundation's `.whitespaces` character set. `init(fileURL:settings:)` reads a file asynchronously line by line, throws `cannotReadFile` on a read error, and stops with `fatalError` when the file cannot be opened. Both then call `init(rows:settings:)`, where the model begins.
- The `MazeSquareType(rawValue:)` initialiser is left out. It belongs to each concrete cell type, so `Mazes.FromRows` takes it as a `parse` parameter.
- Rendering is left out: `text(path:symbol:)` and `description` produce strings for display only.
- The instance wrappers `findShortestPath()`, `findLowestScoringPaths()`, `square(at:)` and `filterSquares(_:)` (Maze.swift lines 161-174 and 230-245) are left out. Each only forwards to the static function of the same name with the maze's own fields.
- The priority queue's `areSorted` closure is left out. It is fixed to `<`, the one comparator the search passes it.
- Integer overflow is left out. Scores are unbounded integers, and `Int.max` as "no lowest score yet" and "no stored score" is modelled as an absent value. The settings are not validated, so with a large `moveCost` (such as `Int.max`) the sum `currentScore + moveCost + rotationCost` overflows, and Swift traps there. The model does not capture that trap.
- The `Sendable`, `Hashable` and `CustomStringConvertible` conformances are left out, and so is the class identity of `Maze`, which is never mutated after `init`. `Maze` is a value here.
- Search.FindLowestScoringPaths: requires `moveCost >= 1` and `moveCost + rotationCost >= 1` (`PositiveCosts`), so that every move costs at least 1. The source accepts any settings. With `moveCost == 0` and no positive rotation cost, a cycle of free moves passes the `<=` test again and again, so the loop never ends. The requirement also excludes `moveCost == 0` with `rotationCost >= 1`, where the source does end, because every cycle of states contains a turn. The termination measure here bounds each score by the number of moves times the dearest move, which needs every move to cost at least 1.
- Search.FindShortestPath: has the same `PositiveCosts` requirement, for the same reason.
- Search.FindLowestScoringPaths: does not state that every lowest-scoring path is returned, nor that each is returned exactly once. The source does both under positive costs. Each path is queued at most once, because it is built from one dequeued entry. Every prefix of a lowest-scoring walk is lowest-scoring for its own state, so it passes the `<=` test and is never pruned. Proving this needs a further invariant about the prefixes of every lowest-scoring walk, which is not part of this model. The model proves optimality, and that each returned path is a walk to the end at the lowest score.
- Mazes.FromRows: reads each row as a sequence of Unicode scalars (`char`). Swift's `row.enumerated()` walks grapheme clusters (`Character`), and `rawValue` matching uses canonical equivalence. For rows holding multi-scalar characters (decomposed accents, emoji sequences), the column numbers and the parsing therefore differ from the source. Unicode segmentation and normalisation are not modelled.
- Search.RelaxMoves / Search.RelaxMove: the body of the `for nextDirection in Direction.allCases` loop is a method of its own. The loop and its branches are as in the source.
