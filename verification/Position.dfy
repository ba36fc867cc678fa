/** Grid coordinates (Sources/MazeSolver/Position.swift). */
module Positions {

  /** A position: `x` counts columns rightwards, `y` counts rows downwards from the top left. */
  datatype Position = Position(x: int, y: int)

  /**
   * `isValid(in:)`: the row index must be an index of the grid, and the column index
   * an index of THAT row, so ragged rows are judged one by one.
   */
  predicate IsValid<E>(p: Position, grid: seq<seq<E>>)
  {
    0 <= p.y < |grid| && 0 <= p.x < |grid[p.y]|
  }

  /** A row index outside the grid is never valid. */
  lemma InvalidOutsideRows<E>(p: Position, grid: seq<seq<E>>)
    requires p.y < 0 || |grid| <= p.y
    ensures !IsValid(p, grid)
  {
  }

  /** A column index outside its own row is never valid, whatever the other rows' lengths. */
  lemma InvalidOutsideOwnRow<E>(p: Position, grid: seq<seq<E>>)
    requires 0 <= p.y < |grid|
    requires p.x < 0 || |grid[p.y]| <= p.x
    ensures !IsValid(p, grid)
  {
  }

  /** A valid position can be used to index the grid. */
  lemma ValidIndexes<E>(p: Position, grid: seq<seq<E>>)
    requires IsValid(p, grid)
    ensures 0 <= p.y < |grid| && 0 <= p.x < |grid[p.y]|
    ensures grid[p.y][p.x] in grid[p.y]
  {
  }
}
