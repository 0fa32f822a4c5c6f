/**
 * The part of a pawn (entities/pawn.py, not part of this model) that the
 * board and the AI read and write: its id, its colour (the first pawn is
 * drawn in `PAWN_A_COL` and heads for row 0, the second in `PAWN_B_COL`
 * and heads for the last row), its cell, its wall and power-bomb counters,
 * its goal cells and the short history of cells it moved from.
 */
module Pawns {
  import opened Wrappers
  import opened Geometry

  datatype Colour = ColourA | ColourB

  datatype Pawn = Pawn(
    id: nat,
    colour: Colour,
    coord: Coord,
    walls: int,
    bombs: int,
    goals: set<Coord>,
    history: seq<Coord>,
    lastCoord: Option<Coord>)
}
