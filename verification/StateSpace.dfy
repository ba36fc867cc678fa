/**
 * The search graph of Sources/MazeSolver/Maze.swift: squares looked up by position, the moves
 * the search may make from a state and what each costs, and walks through the grid with the
 * score the search gives them.
 */
module StateSpace {
  import opened Wrappers
  import opened Directions
  import opened Positions
  import opened Squares
  import opened Settings

  /** `Maze.Grid`: rows of squares, possibly of different lengths. */
  type Grid = seq<seq<MazeSquare>>

  /** `square(at:in:)`: the square at a position, or `nil` when the position is not valid. */
  function SquareAt(p: Position, grid: Grid): (r: Option<MazeSquare>)
    ensures r == None <==> !IsValid(p, grid)
    ensures r != None ==> 0 <= p.y < |grid| && 0 <= p.x < |grid[p.y]| && r.value == grid[p.y][p.x]
  {
    if !IsValid(p, grid) then None else Some(grid[p.y][p.x])
  }

  /** The position one step away in direction `d`: the offset's column moves `x`, its row moves `y`. */
  function Neighbour(p: Position, d: Direction): Position
  {
    Position(p.x + Offset(d).1, p.y + Offset(d).0)
  }

  /** The search may move from `p` in direction `d`: the target is a valid square that is no wall. */
  predicate Open(grid: Grid, p: Position, d: Direction)
  {
    match SquareAt(Neighbour(p, d), grid)
    case None => false
    case Some(square) => !square.squareType.isWall
  }

  /** The cost of moving in direction `d` when facing `facing`: a move, plus a rotation if they differ. */
  function EdgeCost(facing: Direction, d: Direction, s: MazeSettings): int
  {
    s.moveCost + (if d == facing then 0 else s.rotationCost)
  }

  /** Costs under which every move is charged at least one (the search does not check this). */
  predicate PositiveCosts(s: MazeSettings)
  {
    s.moveCost >= 1 && s.moveCost + s.rotationCost >= 1
  }

  /** The most a single move can cost. */
  function MaxEdge(s: MazeSettings): int
  {
    s.moveCost + (if s.rotationCost > 0 then s.rotationCost else 0)
  }

  lemma EdgeCostBounds(facing: Direction, d: Direction, s: MazeSettings)
    requires PositiveCosts(s)
    ensures 1 <= EdgeCost(facing, d, s) <= MaxEdge(s)
  {
  }

  /** The direction of a single step from `a` to `b`, if `b` is next to `a`. */
  function StepDir(a: Position, b: Position): (r: Option<Direction>)
    ensures r.Some? ==> b == Neighbour(a, r.value)
  {
    if b == Neighbour(a, Up) then Some(Up)
    else if b == Neighbour(a, Down) then Some(Down)
    else if b == Neighbour(a, Left) then Some(Left)
    else if b == Neighbour(a, Right) then Some(Right)
    else None
  }

  /** A neighbour is reached in exactly one direction. */
  lemma StepDirOfNeighbour(a: Position, d: Direction)
    ensures StepDir(a, Neighbour(a, d)) == Some(d)
  {
  }

  /** One move of a walk: `b` is next to `a` and the search may move there. */
  predicate IsStep(grid: Grid, a: Position, b: Position)
  {
    StepDir(a, b).Some? && Open(grid, a, StepDir(a, b).value)
  }

  function Last<T>(s: seq<T>): T
    requires |s| > 0
  {
    s[|s| - 1]
  }

  function DropLast<T>(s: seq<T>): seq<T>
    requires |s| > 0
  {
    s[..|s| - 1]
  }

  /** A walk: begins at `start`, then each position is one open move from the one before. */
  predicate ValidWalk(grid: Grid, start: Position, path: seq<Position>)
  {
    if |path| == 0 then false
    else if |path| == 1 then path[0] == start
    else ValidWalk(grid, start, DropLast(path)) && IsStep(grid, path[|path| - 2], Last(path))
  }

  /** A walk from `start` that ends at `end`. */
  predicate WalkTo(grid: Grid, start: Position, end: Position, path: seq<Position>)
  {
    ValidWalk(grid, start, path) && Last(path) == end
  }

  /** The direction faced at the end of a path: that of its last move, or `initial` before any move. */
  function Heading(path: seq<Position>, initial: Direction): Direction
  {
    if |path| <= 1 then initial
    else match StepDir(path[|path| - 2], Last(path))
      case Some(d) => d
      case None => initial
  }

  /**
   * The score the search gives a path: `moveCost` per move, plus `rotationCost` for each move
   * whose direction differs from the one before it, the first move being compared with the
   * initial direction.
   */
  function PathCost(path: seq<Position>, s: MazeSettings): int
  {
    if |path| <= 1 then 0
    else
      var facing := Heading(DropLast(path), s.initialDirection);
      PathCost(DropLast(path), s) + EdgeCost(facing, Heading(path, s.initialDirection), s)
  }

  /** The search states a path passes through: each position with the direction faced there. */
  function Trajectory(path: seq<Position>, initial: Direction): (t: seq<State>)
    ensures |t| == |path|
    ensures |path| > 0 ==> Last(t) == State(Last(path), Heading(path, initial))
  {
    if |path| == 0 then []
    else Trajectory(DropLast(path), initial) + [State(Last(path), Heading(path, initial))]
  }

  /**
   * Extending a walk by one open move keeps it a walk, faces the move's direction, adds the
   * move's edge cost and appends the new state to its trajectory.
   */
  lemma {:induction false} ExtendWalk(grid: Grid, start: Position, path: seq<Position>, d: Direction, s: MazeSettings)
    requires ValidWalk(grid, start, path)
    requires Open(grid, Last(path), d)
    ensures var path' := path + [Neighbour(Last(path), d)];
      && ValidWalk(grid, start, path')
      && DropLast(path') == path
      && Heading(path', s.initialDirection) == d
      && PathCost(path', s) == PathCost(path, s) + EdgeCost(Heading(path, s.initialDirection), d, s)
      && Trajectory(path', s.initialDirection) == Trajectory(path, s.initialDirection) + [State(Last(path'), d)]
  {
    var path' := path + [Neighbour(Last(path), d)];
    assert DropLast(path') == path;
    StepDirOfNeighbour(Last(path), d);
  }

  /** With positive costs a walk of n moves scores between n and n times the dearest move. */
  lemma {:induction false} PathCostBounds(grid: Grid, start: Position, path: seq<Position>, s: MazeSettings)
    requires ValidWalk(grid, start, path)
    requires PositiveCosts(s)
    ensures |path| - 1 <= PathCost(path, s) <= (|path| - 1) * MaxEdge(s)
  {
    if |path| > 1 {
      var n := |path| - 1;
      PathCostBounds(grid, start, DropLast(path), s);
      EdgeCostBounds(Heading(DropLast(path), s.initialDirection), Heading(path, s.initialDirection), s);
      assert (n - 1) * MaxEdge(s) + MaxEdge(s) == n * MaxEdge(s);
    }
  }

  /** Without a rotation cost a walk scores `moveCost` per move, so the lowest score is the fewest moves. */
  lemma {:induction false} PathCostWithoutRotation(path: seq<Position>, s: MazeSettings)
    requires s.rotationCost == 0
    requires |path| > 0
    ensures PathCost(path, s) == s.moveCost * (|path| - 1)
  {
    if |path| > 1 {
      PathCostWithoutRotation(DropLast(path), s);
    }
  }

  /** Without a rotation cost a walk that costs no more has no more moves. */
  lemma CheaperIsShorter(p: seq<Position>, q: seq<Position>, s: MazeSettings)
    requires s.rotationCost == 0 && s.moveCost >= 1
    requires |p| > 0 && |q| > 0
    requires PathCost(p, s) <= PathCost(q, s)
    ensures |p| <= |q|
  {
    PathCostWithoutRotation(p, s);
    PathCostWithoutRotation(q, s);
  }

  /** Every state the search can be in: the initial one, and any valid position facing any way. */
  ghost function AllStates(grid: Grid, start: Position, initial: Direction): set<State>
  {
    {State(start, initial)} +
    set y, x, d | 0 <= y < |grid| && 0 <= x < |grid[y]| && d in AllCases :: State(Position(x, y), d)
  }

  /** A walk only passes through states of `AllStates`. */
  lemma {:induction false} TrajectoryInAllStates(grid: Grid, start: Position, path: seq<Position>, initial: Direction)
    requires ValidWalk(grid, start, path)
    ensures forall X :: X in Trajectory(path, initial) ==> X in AllStates(grid, start, initial)
  {
    var t := Trajectory(path, initial);
    if |path| > 1 {
      TrajectoryInAllStates(grid, start, DropLast(path), initial);
      var p := Last(path);
      assert SquareAt(p, grid).Some?;
      var d := Heading(path, initial);
      AllCasesComplete(d);
      assert State(Position(p.x, p.y), d) in AllStates(grid, start, initial);
      assert t == Trajectory(DropLast(path), initial) + [State(p, d)];
    } else {
      assert t == [State(start, initial)];
    }
  }

  /** No element occurs twice. */
  ghost predicate Distinct<T>(s: seq<T>)
  {
    forall i, j :: 0 <= i < j < |s| ==> s[i] != s[j]
  }

  /** A duplicate-free sequence drawn from a finite set is no longer than the set. */
  lemma {:induction false} DistinctWithin<T>(s: seq<T>, S: set<T>)
    requires Distinct(s)
    requires forall x :: x in s ==> x in S
    ensures |s| <= |S|
  {
    if |s| > 0 {
      var rest := s[1..];
      forall x | x in rest ensures x in S - {s[0]} {
        var k :| 0 <= k < |rest| && rest[k] == x;
        assert s[k + 1] == x;
      }
      DistinctWithin(rest, S - {s[0]});
    }
  }
}
