/** Traversal settings (Sources/MazeSolver/MazeSettings.swift). */
module Settings {
  import opened Directions

  /**
   * `MazeSettings`: the cost of one move, the extra cost of a move that changes direction,
   * and the direction faced before the first move. The initialiser's defaults are the
   * constructor's defaults; nothing is validated.
   */
  datatype MazeSettings = MazeSettings(
    moveCost: int := 1,
    rotationCost: int := 0,
    initialDirection: Direction := Up)

  /** `MazeSettings.default`, which is `init()` with every argument left out. */
  const Default: MazeSettings := MazeSettings()

  /** The default settings: moves cost 1, turning is free, and the walker starts facing up. */
  lemma DefaultSettings()
    ensures Default.moveCost == 1
    ensures Default.rotationCost == 0
    ensures Default.initialDirection == Up
  {
  }

  /** The initialiser stores its arguments unchanged. */
  lemma InitStoresArguments(m: int, r: int, d: Direction)
    ensures MazeSettings(m, r, d).moveCost == m
    ensures MazeSettings(m, r, d).rotationCost == r
    ensures MazeSettings(m, r, d).initialDirection == d
  {
  }
}
