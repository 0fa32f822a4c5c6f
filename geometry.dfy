/**
 * Board coordinates (the `Coord` pair of entities/coord.py): a row and a
 * column, compared by value, with component-wise addition.
 */
module Geometry {
  datatype Coord = Coord(row: int, col: int)
  {
    /** `Coord.__add__`: component-wise sum. */
    function Plus(d: Coord): Coord
    {
      Coord(row + d.row, col + d.col)
    }
  }

  function Abs(x: int): nat
  {
    if x < 0 then -x else x
  }

  /** Manhattan distance `abs(dr) + abs(dc)`. */
  function Manhattan(a: Coord, b: Coord): nat
  {
    Abs(a.row - b.row) + Abs(a.col - b.col)
  }
}
