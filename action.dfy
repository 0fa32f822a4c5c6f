/**
 * The three actions a player can take (ai/action.py, not part of this
 * model): move the pawn from `orig` to `dest`, place a wall, or set off a
 * power bomb centred on a cell.
 */
module Actions {
  import opened Geometry

  datatype Action =
    | MovePawn(orig: Coord, dest: Coord)
    | PlaceWall(coord: Coord, horiz: bool)
    | PowerBomb(center: Coord)
}
