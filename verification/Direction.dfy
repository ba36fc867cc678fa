/** Move directions and their unit offsets (Sources/MazeSolver/Direction.swift). */
module Directions {

  /** The four directions of travel; `CaseIterable` gives exactly these four. */
  datatype Direction = Up | Down | Left | Right

  /** `Direction.allCases`, in declaration order. */
  const AllCases: seq<Direction> := [Up, Down, Left, Right]

  /** The `Character` raw value of each case. */
  function RawValue(d: Direction): char
  {
    match d
    case Up => '^'
    case Down => 'v'
    case Left => '<'
    case Right => '>'
  }

  /** The `offset` table, as a (row, column) pair. */
  function Offset(d: Direction): (int, int)
  {
    match d
    case Up => (-1, 0)
    case Down => (1, 0)
    case Left => (0, -1)
    case Right => (0, 1)
  }

  function Abs(n: int): nat
  {
    if n < 0 then -n else n
  }

  /** The direction facing the other way. */
  function Opposite(d: Direction): Direction
  {
    match d
    case Up => Down
    case Down => Up
    case Left => Right
    case Right => Left
  }

  /** `allCases` lists every direction exactly once. */
  lemma AllCasesComplete(d: Direction)
    ensures d in AllCases
    ensures |AllCases| == 4
    ensures forall i, j :: 0 <= i < j < |AllCases| ==> AllCases[i] != AllCases[j]
  {
  }

  /** Every offset is a single orthogonal unit step. */
  lemma OffsetIsUnitStep(d: Direction)
    ensures Abs(Offset(d).0) + Abs(Offset(d).1) == 1
  {
  }

  /** Opposite directions cancel out. */
  lemma OppositeOffsetsCancel(d: Direction)
    ensures Offset(d).0 + Offset(Opposite(d)).0 == 0
    ensures Offset(d).1 + Offset(Opposite(d)).1 == 0
  {
  }

  /** Distinct directions have distinct offsets, so an offset names its direction. */
  lemma OffsetInjective(d: Direction, e: Direction)
    ensures Offset(d) == Offset(e) <==> d == e
  {
  }

  /** Distinct directions have distinct raw values. */
  lemma RawValueInjective(d: Direction, e: Direction)
    ensures RawValue(d) == RawValue(e) <==> d == e
  {
  }
}
