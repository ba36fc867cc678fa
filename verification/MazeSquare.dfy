/**
 * Cells of the grid and search states (Sources/MazeSolver/MazeSquareType.swift,
 * Sources/MazeSolver/MazeSquare.swift, Sources/MazeSolver/State.swift).
 */
module Squares {
  import opened Directions
  import opened Positions

  /**
   * A cell type: the capabilities the `MazeSquareType` protocol asks for, with the character it
   * is read from. `isStart` and `isEnd` are optional in the protocol and default to false.
   */
  datatype MazeSquareType = MazeSquareType(
    rawValue: char,
    isWall: bool,
    isEmpty: bool,
    isStart: bool := false,
    isEnd: bool := false)

  /** A cell of the grid: its type and the position it was created at. */
  datatype MazeSquare = MazeSquare(squareType: MazeSquareType, position: Position)
  {
    /** `isWall` asks the square's type. */
    predicate IsWall() { squareType.isWall }

    /** `isEmpty` asks the square's type. */
    predicate IsEmpty() { squareType.isEmpty }
  }

  /** A vertex of the search graph: where the walker is and which way it faces. */
  datatype State = State(position: Position, direction: Direction)

  /** A type that leaves out `isStart` and `isEnd` marks neither the start nor the end. */
  lemma OptionalCapabilitiesDefault(raw: char, wall: bool, empty: bool)
    ensures !MazeSquareType(raw, wall, empty).isStart
    ensures !MazeSquareType(raw, wall, empty).isEnd
  {
  }

  /** A square answers `isWall` and `isEmpty` exactly as its type does. */
  lemma SquareDelegatesToType(t: MazeSquareType, p: Position)
    ensures MazeSquare(t, p).IsWall() == t.isWall
    ensures MazeSquare(t, p).IsEmpty() == t.isEmpty
  {
  }
}
