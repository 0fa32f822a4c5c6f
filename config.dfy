/**
 * Global configuration (config.py): cell geometry, the board size chosen
 * for each AI level, and the direction tables.
 */
module Config {
  import opened Geometry

  const CellWidth := 50
  const CellHeight := 50
  const CellPad := 7
  const DefRows := 9
  const DefCols := 9
  const NumWalls := 10
  const DefaultNumPlayers := 2
  /** Smallest cell side `get_board_settings` hands out. */
  const MinCellSide := 30

  /** The `DIR` class: indices into the direction tables. */
  const N: nat := 0
  const S: nat := 1
  const E: nat := 2
  const W: nat := 3

  /** `OPPOSITE_DIRS`, indexed by direction. */
  const OppositeDirs: seq<nat> := [S, N, W, E]

  /** `DIRS_DELTA`: what to add to a coordinate to step in each direction. */
  const DirsDelta: seq<Coord> := [Coord(-1, 0), Coord(1, 0), Coord(0, -1), Coord(0, 1)]

  /**
   * `OPPOSITE_DIRS[d]`: the table is an involution and the step of the
   * opposite direction undoes the step of `d`.
   */
  function Opposite(d: nat): (o: nat)
    requires d < 4
    ensures o < 4 && o != d
    ensures OppositeDirs[o] == d
    ensures DirsDelta[o] == Coord(-DirsDelta[d].row, -DirsDelta[d].col)
    ensures Coord(0, 0).Plus(DirsDelta[d]).Plus(DirsDelta[o]) == Coord(0, 0)
  {
    OppositeDirs[d]
  }

  /** The tuple `(rows, cols, walls_per_player, cell_width, cell_height)`. */
  datatype Settings = Settings(rows: int, cols: int, walls: int, cellWidth: int, cellHeight: int)

  function Max(a: int, b: int): int
  {
    if a < b then b else a
  }

  /** Width (or height) in pixels of `size` cells of side `cell` with padding between them. */
  function Footprint(size: int, cell: int): int
  {
    size * cell + (size - 1) * CellPad
  }

  /**
   * `get_board_settings`: the board size and wall count for an AI level,
   * and the cell sides that make the board as wide and tall as the
   * default 9x9 board. Each side is the largest whole number of pixels
   * for which the board still fits that footprint, and never under 30.
   */
  function BoardSettings(level: int): (s: Settings)
    ensures s.rows == s.cols
    ensures level <= 2 ==> s.rows == 9 && s.walls == 10
    ensures 2 < level <= 4 ==> s.rows == 7 && s.walls == 7
    ensures 4 < level ==> s.rows == 5 && s.walls == 5
    ensures s.cellWidth >= MinCellSide && s.cellHeight >= MinCellSide
    ensures Footprint(s.rows, s.cellWidth) <= Footprint(DefRows, CellWidth)
    ensures Footprint(s.rows, s.cellHeight) <= Footprint(DefRows, CellHeight)
    ensures Footprint(DefRows, CellWidth) < Footprint(s.rows, s.cellWidth + 1)
    ensures Footprint(DefRows, CellHeight) < Footprint(s.rows, s.cellHeight + 1)
  {
    var baseSize := 9;
    var targetWidth := baseSize * CellWidth + (baseSize - 1) * CellPad;
    var targetHeight := baseSize * CellHeight + (baseSize - 1) * CellPad;
    var (boardSize, walls) :=
      if level <= 2 then (9, 10)
      else if level <= 4 then (7, 7)
      else (5, 5);
    var availableWidth := targetWidth - (boardSize - 1) * CellPad;
    var availableHeight := targetHeight - (boardSize - 1) * CellPad;
    // Python's `//` on these positive operands agrees with Dafny's `/`.
    var cellWidth := availableWidth / boardSize;
    var cellHeight := availableHeight / boardSize;
    Settings(boardSize, boardSize, walls, Max(cellWidth, MinCellSide), Max(cellHeight, MinCellSide))
  }
}
