/**
 * Building a maze (Sources/MazeSolver/Maze.swift, Sources/MazeSolver/MazeError.swift): the grid,
 * the start and end squares, either given by position and checked or found by scanning the
 * grid, and the grid built from rows of characters.
 */
module Mazes {
  import opened Wrappers
  import opened Positions
  import opened Squares
  import opened Settings
  import opened StateSpace

  /** `MazeError`. */
  datatype MazeError =
    | UnknownSquareType
    | NoStart
    | NoEnd
    | CannotReadFile(url: string)
    | InvalidPosition(position: Position)

  /** A maze: its grid, start and end squares and settings, fixed once built. */
  datatype Maze = Maze(grid: Grid, start: MazeSquare, end: MazeSquare, settings: MazeSettings)

  /** `Array.filter` on one row: the squares `isIncluded` accepts, in order. */
  function Filter(row: seq<MazeSquare>, isIncluded: MazeSquare -> bool): seq<MazeSquare>
  {
    if row == [] then [] else (if isIncluded(row[0]) then [row[0]] else []) + Filter(row[1..], isIncluded)
  }

  /** The squares `isIncluded` accepts, row after row: what `filterSquares(in:_:)` collects. */
  function FilteredSquares(grid: Grid, isIncluded: MazeSquare -> bool): seq<MazeSquare>
  {
    if grid == [] then [] else FilteredSquares(DropLast(grid), isIncluded) + Filter(Last(grid), isIncluded)
  }

  /** `filterSquares(in:_:)`: appends each row's accepted squares in turn. */
  method FilterSquares(grid: Grid, isIncluded: MazeSquare -> bool) returns (matching: seq<MazeSquare>)
    ensures matching == FilteredSquares(grid, isIncluded)
    ensures forall s :: s in matching ==> isIncluded(s)
  {
    matching := [];
    for y := 0 to |grid|
      invariant matching == FilteredSquares(grid[..y], isIncluded)
    {
      assert DropLast(grid[..y + 1]) == grid[..y];
      matching := matching + Filter(grid[y], isIncluded);
    }
    assert grid[..|grid|] == grid;
    FilteredSquaresAccepted(grid, isIncluded);
  }

  /** Whether `isIncluded` accepts some square of the grid. */
  ghost predicate AnyAccepted(grid: Grid, isIncluded: MazeSquare -> bool)
  {
    exists y, x :: 0 <= y < |grid| && 0 <= x < |grid[y]| && isIncluded(grid[y][x])
  }

  /** `grid[y][x]` is the first square `isIncluded` accepts in row-major order. */
  ghost predicate FirstAccepted(grid: Grid, isIncluded: MazeSquare -> bool, y: int, x: int)
  {
    && 0 <= y < |grid| && 0 <= x < |grid[y]| && isIncluded(grid[y][x])
    && (forall y' :: 0 <= y' < y ==> forall x' :: 0 <= x' < |grid[y']| ==> !isIncluded(grid[y'][x']))
    && (forall x' :: 0 <= x' < x ==> !isIncluded(grid[y][x']))
  }

  lemma {:induction false} FilterAccepted(row: seq<MazeSquare>, isIncluded: MazeSquare -> bool)
    ensures forall s :: s in Filter(row, isIncluded) ==> isIncluded(s)
  {
    if row != [] {
      FilterAccepted(row[1..], isIncluded);
    }
  }

  lemma {:induction false} FilteredSquaresAccepted(grid: Grid, isIncluded: MazeSquare -> bool)
    ensures forall s :: s in FilteredSquares(grid, isIncluded) ==> isIncluded(s)
  {
    if grid != [] {
      FilteredSquaresAccepted(DropLast(grid), isIncluded);
      FilterAccepted(Last(grid), isIncluded);
    }
  }

  /** Filtering a row finds nothing exactly when nothing is accepted; otherwise it starts with the first accepted square. */
  lemma {:induction false} FilterFirst(row: seq<MazeSquare>, isIncluded: MazeSquare -> bool)
    ensures Filter(row, isIncluded) == [] <==> forall x :: 0 <= x < |row| ==> !isIncluded(row[x])
    ensures Filter(row, isIncluded) != [] ==>
      exists x :: 0 <= x < |row| && isIncluded(row[x]) && Filter(row, isIncluded)[0] == row[x]
        && forall x' :: 0 <= x' < x ==> !isIncluded(row[x'])
  {
    if row != [] {
      FilterFirst(row[1..], isIncluded);
      if !isIncluded(row[0]) && Filter(row, isIncluded) != [] {
        var x :| 0 <= x < |row[1..]| && isIncluded(row[1..][x]) && Filter(row[1..], isIncluded)[0] == row[1..][x]
          && forall x' :: 0 <= x' < x ==> !isIncluded(row[1..][x']);
        assert row[x + 1] == row[1..][x];
        forall x' | 0 <= x' < x + 1 ensures !isIncluded(row[x']) {
          if x' > 0 { assert row[x'] == row[1..][x' - 1]; }
        }
      }
      if Filter(row, isIncluded) == [] {
        forall x | 0 <= x < |row| ensures !isIncluded(row[x]) {
          if x > 0 { assert row[x] == row[1..][x - 1]; }
        }
      }
    }
  }

  /**
   * The squares collected run in row-major order: none when no square is accepted, and
   * otherwise the first of them is the first accepted square in row-major order.
   */
  lemma {:induction false} FilteredSquaresFirst(grid: Grid, isIncluded: MazeSquare -> bool)
    ensures FilteredSquares(grid, isIncluded) == [] <==> !AnyAccepted(grid, isIncluded)
    ensures FilteredSquares(grid, isIncluded) != [] ==>
      exists y, x :: FirstAccepted(grid, isIncluded, y, x) && FilteredSquares(grid, isIncluded)[0] == grid[y][x]
  {
    if grid != [] {
      var init, row := DropLast(grid), Last(grid);
      FilteredSquaresFirst(init, isIncluded);
      FilterFirst(row, isIncluded);
      assert forall y :: 0 <= y < |init| ==> grid[y] == init[y];
      if FilteredSquares(init, isIncluded) != [] {
        var y, x :| FirstAccepted(init, isIncluded, y, x) && FilteredSquares(init, isIncluded)[0] == init[y][x];
        assert FirstAccepted(grid, isIncluded, y, x);
      } else if Filter(row, isIncluded) != [] {
        var x :| 0 <= x < |row| && isIncluded(row[x]) && Filter(row, isIncluded)[0] == row[x]
          && forall x' :: 0 <= x' < x ==> !isIncluded(row[x']);
        assert FirstAccepted(grid, isIncluded, |grid| - 1, x);
      } else {
        forall y, x | 0 <= y < |grid| && 0 <= x < |grid[y]| ensures !isIncluded(grid[y][x]) {
          if y < |init| {
            assert !isIncluded(init[y][x]);
          }
        }
      }
    }
  }

  /**
   * Resolves the start or the end square: a given position must be valid and names the square
   * there; otherwise the first square `isIncluded` accepts is taken, and `missing` is thrown when
   * there is none.
   */
  function Resolve(grid: Grid, given: Option<Position>, isIncluded: MazeSquare -> bool, missing: MazeError): (r: Result<MazeSquare, MazeError>)
    ensures given.Some? ==> (r.Success? <==> IsValid(given.value, grid))
    ensures given.Some? ==> (r == Failure(InvalidPosition(given.value)) <==> !IsValid(given.value, grid))
    ensures given.Some? && r.Success? ==> r.value == grid[given.value.y][given.value.x]
    ensures given.None? ==> (r.Failure? <==> !AnyAccepted(grid, isIncluded))
    ensures given.None? && r.Failure? ==> r.error == missing
    ensures given.None? && r.Success? ==> exists y, x :: FirstAccepted(grid, isIncluded, y, x) && r.value == grid[y][x]
  {
    match given
    case Some(p) =>
      (match SquareAt(p, grid)
       case None => Failure(InvalidPosition(p))
       case Some(square) => Success(square))
    case None =>
      FilteredSquaresFirst(grid, isIncluded);
      var found := FilteredSquares(grid, isIncluded);
      if |found| > 0 then Success(found[0]) else Failure(missing)
  }

  /** The capability that marks the start square. */
  predicate IsStartSquare(s: MazeSquare) { s.squareType.isStart }

  /** The capability that marks the end square. */
  predicate IsEndSquare(s: MazeSquare) { s.squareType.isEnd }

  /** `init(grid:start:end:settings:)`: the start is resolved, and only then the end. */
  function Init(grid: Grid, start: Option<Position>, end: Option<Position>, settings: MazeSettings := Default): (r: Result<Maze, MazeError>)
    ensures r.Success? <==>
      Resolve(grid, start, IsStartSquare, NoStart).Success? && Resolve(grid, end, IsEndSquare, NoEnd).Success?
    ensures r.Success? ==> r.value.grid == grid && r.value.settings == settings
    ensures r.Success? ==> r.value.start == Resolve(grid, start, IsStartSquare, NoStart).value
    ensures r.Success? ==> r.value.end == Resolve(grid, end, IsEndSquare, NoEnd).value
    ensures Resolve(grid, start, IsStartSquare, NoStart).Failure? ==> r == Failure(Resolve(grid, start, IsStartSquare, NoStart).error)
    ensures Resolve(grid, start, IsStartSquare, NoStart).Success? && Resolve(grid, end, IsEndSquare, NoEnd).Failure? ==>
      r == Failure(Resolve(grid, end, IsEndSquare, NoEnd).error)
  {
    match Resolve(grid, start, IsStartSquare, NoStart)
    case Failure(e) => Failure(e)
    case Success(startSquare) =>
      match Resolve(grid, end, IsEndSquare, NoEnd)
      case Failure(e) => Failure(e)
      case Success(endSquare) => Success(Maze(grid, startSquare, endSquare, settings))
  }

  /** A start position outside the grid is reported, even when the end is wrong too. */
  lemma InvalidStartWins(grid: Grid, p: Position, end: Option<Position>, settings: MazeSettings)
    requires !IsValid(p, grid)
    ensures Init(grid, Some(p), end, settings) == Failure(InvalidPosition(p))
  {
  }

  /** Once the start is resolved, an end position outside the grid is reported. */
  lemma InvalidEndReported(grid: Grid, start: Option<Position>, q: Position, settings: MazeSettings)
    requires Resolve(grid, start, IsStartSquare, NoStart).Success?
    requires !IsValid(q, grid)
    ensures Init(grid, start, Some(q), settings) == Failure(InvalidPosition(q))
  {
  }

  /**
   * Without a given start, the maze starts at the first start square in row-major order and
   * `noStart` is thrown when there is none; likewise for the end with `noEnd`.
   */
  lemma ScannedStartAndEnd(grid: Grid, settings: MazeSettings)
    ensures !AnyAccepted(grid, IsStartSquare) ==> Init(grid, None, None, settings) == Failure(NoStart)
    ensures AnyAccepted(grid, IsStartSquare) && !AnyAccepted(grid, IsEndSquare) ==>
      Init(grid, None, None, settings) == Failure(NoEnd)
    ensures AnyAccepted(grid, IsStartSquare) && AnyAccepted(grid, IsEndSquare) ==>
      && Init(grid, None, None, settings).Success?
      && (exists y, x :: FirstAccepted(grid, IsStartSquare, y, x) && Init(grid, None, None, settings).value.start == grid[y][x])
      && (exists y, x :: FirstAccepted(grid, IsEndSquare, y, x) && Init(grid, None, None, settings).value.end == grid[y][x])
  {
  }

  /** Valid given start and end positions are accepted, with the squares at those positions. */
  lemma GivenPositionsAccepted(grid: Grid, p: Position, q: Position, settings: MazeSettings)
    requires IsValid(p, grid) && IsValid(q, grid)
    ensures Init(grid, Some(p), Some(q), settings) == Success(Maze(grid, grid[p.y][p.x], grid[q.y][q.x], settings))
  {
  }

  /** Every square records the position it sits at. */
  ghost predicate WellPositioned(grid: Grid)
  {
    forall y, x :: 0 <= y < |grid| && 0 <= x < |grid[y]| ==> grid[y][x].position == Position(x, y)
  }

  /** In a grid whose squares record their own positions, a given start or end is kept as given. */
  lemma GivenPositionsKept(grid: Grid, p: Position, q: Position, settings: MazeSettings)
    requires WellPositioned(grid)
    requires Init(grid, Some(p), Some(q), settings).Success?
    ensures Init(grid, Some(p), Some(q), settings).value.start.position == p
    ensures Init(grid, Some(p), Some(q), settings).value.end.position == q
  {
  }

  /** Every character of every row has a square type. */
  ghost predicate AllKnown(rows: seq<string>, parse: char -> Option<MazeSquareType>)
  {
    forall y, x :: 0 <= y < |rows| && 0 <= x < |rows[y]| ==> parse(rows[y][x]).Some?
  }

  /** The grid read from rows: the character at row y, column x becomes a square at (x, y). */
  function BuildGrid(rows: seq<string>, parse: char -> Option<MazeSquareType>): Grid
    requires AllKnown(rows, parse)
  {
    seq(|rows|, y requires 0 <= y < |rows| =>
      seq(|rows[y]|, x requires 0 <= x < |rows[y]| => MazeSquare(parse(rows[y][x]).value, Position(x, y))))
  }

  /** The built grid has the rows' shape, and the square at (x, y) is typed by the character there. */
  lemma BuiltGridSquares(rows: seq<string>, parse: char -> Option<MazeSquareType>, p: Position)
    requires AllKnown(rows, parse)
    ensures WellPositioned(BuildGrid(rows, parse))
    ensures IsValid(p, BuildGrid(rows, parse)) <==> 0 <= p.y < |rows| && 0 <= p.x < |rows[p.y]|
    ensures IsValid(p, BuildGrid(rows, parse)) ==>
      SquareAt(p, BuildGrid(rows, parse)) == Some(MazeSquare(parse(rows[p.y][p.x]).value, p))
  {
  }

  /**
   * `init(rows:settings:)`: reads every character of every row in order, failing with
   * `unknownSquareType` at the first that has no square type, then resolves start and end by
   * scanning.
   */
  method FromRows(rows: seq<string>, parse: char -> Option<MazeSquareType>, settings: MazeSettings := Default)
    returns (r: Result<Maze, MazeError>)
    ensures !AllKnown(rows, parse) <==> r == Failure(UnknownSquareType)
    ensures AllKnown(rows, parse) ==> r == Init(BuildGrid(rows, parse), None, None, settings)
  {
    var grid: Grid := [];
    for y := 0 to |rows|
      invariant |grid| == y
      invariant forall y', x :: 0 <= y' < y && 0 <= x < |rows[y']| ==> parse(rows[y'][x]).Some?
      invariant forall y' :: 0 <= y' < y ==> |grid[y']| == |rows[y']|
      invariant forall y', x :: 0 <= y' < y && 0 <= x < |rows[y']| ==>
        grid[y'][x] == MazeSquare(parse(rows[y'][x]).value, Position(x, y'))
    {
      var row := rows[y];
      var squaresInRow: seq<MazeSquare> := [];
      for x := 0 to |row|
        invariant |squaresInRow| == x
        invariant forall x' :: 0 <= x' < x ==> parse(row[x']).Some?
        invariant forall x' :: 0 <= x' < x ==> squaresInRow[x'] == MazeSquare(parse(row[x']).value, Position(x', y))
      {
        var squareType := parse(row[x]);
        if squareType.None? {
          r := Failure(UnknownSquareType);
          assert parse(rows[y][x]).None?;
          return;
        }
        squaresInRow := squaresInRow + [MazeSquare(squareType.value, Position(x, y))];
      }
      grid := grid + [squaresInRow];
    }
    ghost var built := BuildGrid(rows, parse);
    forall y | 0 <= y < |rows| ensures grid[y] == built[y] {
      assert |grid[y]| == |built[y]|;
    }
    assert grid == built;
    r := Init(grid, None, None, settings);
    ResultNeverUnknown(grid, settings);
  }

  /** Resolving start and end never throws `unknownSquareType`. */
  lemma ResultNeverUnknown(grid: Grid, settings: MazeSettings)
    ensures Init(grid, None, None, settings) != Failure(UnknownSquareType)
  {
  }
}
