/**
 * The wall positions the AI of ai/ai.py considers worth trying: cells near
 * a pawn, cells whose walls cut a pawn's shortest path, and cells around
 * the midpoint between the moving pawn and each opponent. A position is
 * the top-left cell of a wall, so only cells that leave room for a wall's
 * second cell (`WallSpot`) are kept.
 */
module AiPositions {
  import opened Wrappers
  import opened Geometry
  import opened Walls
  import opened Boards

  /** A cell on the board that is not in its last row or its last column. */
  predicate WallSpot(rows: int, cols: int, c: Coord)
  {
    InRange(rows, cols, c) && c.row < rows - 1 && c.col < cols - 1
  }

  /**
   * `_get_positions_near_pawn`: every wall spot within Manhattan distance
   * `radius` of the pawn.
   */
  method PositionsNearPawn(rows: int, cols: int, p: Coord, radius: int) returns (positions: set<Coord>)
    ensures forall c :: c in positions <==> WallSpot(rows, cols, c) && Manhattan(c, p) <= radius
  {
    positions := {};
    var dr := -radius;
    while dr <= radius
      invariant radius >= 0 ==> -radius <= dr <= radius + 1
      invariant forall c :: c in positions <==>
        WallSpot(rows, cols, c) && Manhattan(c, p) <= radius && c.row - p.row < dr
      decreases radius + 1 - dr
    {
      var dc := -radius;
      while dc <= radius
        invariant -radius <= dc <= radius + 1
        invariant forall c :: c in positions <==>
          WallSpot(rows, cols, c) && Manhattan(c, p) <= radius
          && (c.row - p.row < dr || (c.row - p.row == dr && c.col - p.col < dc))
        decreases radius + 1 - dc
      {
        if Abs(dr) + Abs(dc) <= radius {
          var pos := Coord(p.row + dr, p.col + dc);
          if WallSpot(rows, cols, pos) {
            positions := positions + {pos};
          }
        }
        dc := dc + 1;
      }
      dr := dr + 1;
    }
  }

  /**
   * `_get_blocking_wall_positions`: the position of the wall that separates
   * two cells next to each other in a row (a vertical wall) or in a column
   * (a horizontal wall), clamped to the board; nothing for cells that share
   * neither.
   */
  function BlockingWallPositions(rows: int, cols: int, p1: Coord, p2: Coord): set<Coord>
  {
    if p1.row == p2.row then
      var wallRow := if p1.row <= rows - 2 then p1.row else rows - 2;
      var wallCol := if p1.col <= p2.col then p1.col else p2.col;
      if wallCol < cols - 1 then {Coord(wallRow, wallCol)} else {}
    else if p1.col == p2.col then
      var wallRow := if p1.row <= p2.row then p1.row else p2.row;
      var wallCol := if p1.col <= cols - 2 then p1.col else cols - 2;
      if wallRow < rows - 1 then {Coord(wallRow, wallCol)} else {}
    else
      {}
  }

  /**
   * At most one position, none for cells in different rows and columns,
   * and never one in the last row or column.
   */
  lemma BlockingWallBounds(rows: int, cols: int, p1: Coord, p2: Coord)
    ensures |BlockingWallPositions(rows, cols, p1, p2)| <= 1
    ensures p1.row != p2.row && p1.col != p2.col ==> BlockingWallPositions(rows, cols, p1, p2) == {}
    ensures forall c :: c in BlockingWallPositions(rows, cols, p1, p2) ==> c.row < rows - 1 && c.col < cols - 1
  {
  }

  /**
   * For two neighbouring cells of a board of at least 2x2 cells, the
   * position found is a wall spot and a wall there, of either orientation,
   * touches both cells.
   */
  lemma BlockingWallTouchesStep(rows: int, cols: int, p1: Coord, p2: Coord, horiz: bool)
    requires rows >= 2 && cols >= 2
    requires InRange(rows, cols, p1) && InRange(rows, cols, p2) && Manhattan(p1, p2) == 1
    ensures exists c :: BlockingWallPositions(rows, cols, p1, p2) == {c}
    ensures forall c :: c in BlockingWallPositions(rows, cols, p1, p2) ==>
      WallSpot(rows, cols, c)
      && WallAffectsCoord(Wall(c, horiz, None), p1) && WallAffectsCoord(Wall(c, horiz, None), p2)
  {
    if p1.row == p2.row {
      var wallCol := if p1.col <= p2.col then p1.col else p2.col;
      var wallRow := if p1.row <= rows - 2 then p1.row else rows - 2;
      assert BlockingWallPositions(rows, cols, p1, p2) == {Coord(wallRow, wallCol)};
    } else {
      var wallRow := if p1.row <= p2.row then p1.row else p2.row;
      var wallCol := if p1.col <= cols - 2 then p1.col else cols - 2;
      assert BlockingWallPositions(rows, cols, p1, p2) == {Coord(wallRow, wallCol)};
    }
  }

  /**
   * The positions used when a pawn's shortest path cannot be read: the
   * row above for the AI pawns (index 1 on), the row below for the first
   * pawn, at the pawn's column and the one to its left. Each pawn heads
   * away from its start row, so this is the row behind the pawn.
   */
  function FallbackPositions(rows: int, index: int, p: Coord): set<Coord>
  {
    var left := if p.col - 1 >= 0 then p.col - 1 else 0;
    if index >= 1 then
      if p.row > 0 then {Coord(p.row - 1, left), Coord(p.row - 1, p.col)} else {}
    else
      if p.row < rows - 2 then {Coord(p.row + 1, left), Coord(p.row + 1, p.col)} else {}
  }

  /**
   * Every fallback position lies one row from the pawn, on the side away
   * from its goal row, with a row that leaves room for a wall, and at the
   * pawn's column or the one to its left.
   */
  lemma FallbackBehind(rows: int, index: int, p: Coord, c: Coord)
    requires 0 <= p.row < rows && 0 <= p.col && c in FallbackPositions(rows, index, p)
    ensures c.row == (if index >= 1 then p.row - 1 else p.row + 1)
    ensures 0 <= c.row < rows - 1
    ensures 0 <= c.col && p.col - 1 <= c.col <= p.col
  {
  }

  /** The positions that cut some step of the path `ps`. */
  function StepBlocking(rows: int, cols: int, ps: seq<Coord>): set<Coord>
  {
    if |ps| < 2 then {}
    else StepBlocking(rows, cols, ps[..|ps| - 1]) + BlockingWallPositions(rows, cols, ps[|ps| - 2], ps[|ps| - 1])
  }

  /** What `_get_path_blocking_positions` collects for a pawn; `None` stands for a path that cannot be read. */
  function PathBlockingSet(rows: int, cols: int, index: int, p: Coord, path: Option<seq<Coord>>): set<Coord>
  {
    match path
    case None => FallbackPositions(rows, index, p)
    case Some(ps) => StepBlocking(rows, cols, ps)
  }

  /**
   * `_get_path_blocking_positions`: the positions that cut some step of the
   * pawn's shortest path, or the fallback positions in front of it.
   */
  method PathBlockingPositions(rows: int, cols: int, index: int, p: Coord, path: Option<seq<Coord>>)
    returns (positions: set<Coord>)
    ensures path.Some? ==> forall c :: c in positions <==>
      exists i :: 0 <= i < |path.value| - 1 && c in BlockingWallPositions(rows, cols, path.value[i], path.value[i + 1])
    ensures positions == PathBlockingSet(rows, cols, index, p, path)
  {
    positions := {};
    match path
    case None =>
      positions := FallbackPositions(rows, index, p);
    case Some(ps) =>
      if |ps| > 1 {
        for i := 0 to |ps| - 1
          invariant forall c :: c in positions <==>
            exists j :: 0 <= j < i && c in BlockingWallPositions(rows, cols, ps[j], ps[j + 1])
          invariant positions == StepBlocking(rows, cols, ps[..i + 1])
        {
          positions := positions + BlockingWallPositions(rows, cols, ps[i], ps[i + 1]);
          assert ps[..i + 2][..i + 1] == ps[..i + 1];
        }
        assert ps[..|ps|] == ps;
      }
  }

  /** Python's `a // 2`, which Dafny's `/` gives for a positive divisor. */
  function Midpoint(a: Coord, b: Coord): Coord
  {
    Coord((a.row + b.row) / 2, (a.col + b.col) / 2)
  }

  /** `c` is in the 3x3 block centred on `m`. */
  predicate Around(m: Coord, c: Coord)
  {
    Abs(c.row - m.row) <= 1 && Abs(c.col - m.col) <= 1
  }

  /** `c` is around the midpoint between pawn `me` and some other pawn among the first `n`. */
  ghost predicate NearMidpoint(coords: seq<Coord>, me: int, n: int, c: Coord)
    requires 0 <= me < |coords| && n <= |coords|
  {
    exists j :: 0 <= j < n && j != me && Around(Midpoint(coords[me], coords[j]), c)
  }

  /** The 3x3 loop of `_get_shortcut_positions`: add the wall spots around `m`. */
  method AddBlock(rows: int, cols: int, positions: set<Coord>, m: Coord) returns (r: set<Coord>)
    ensures forall c :: c in r <==> c in positions || (WallSpot(rows, cols, c) && Around(m, c))
  {
    r := positions;
    for dr := -1 to 2
      invariant forall c :: c in r <==>
        c in positions || (WallSpot(rows, cols, c) && Around(m, c) && c.row - m.row < dr)
    {
      for dc := -1 to 2
        invariant forall c :: c in r <==>
          c in positions || (WallSpot(rows, cols, c) && Around(m, c)
            && (c.row - m.row < dr || (c.row - m.row == dr && c.col - m.col < dc)))
      {
        var pos := Coord(m.row + dr, m.col + dc);
        if WallSpot(rows, cols, pos) {
          r := r + {pos};
        }
      }
    }
  }

  /**
   * `_get_shortcut_positions` for pawn `me`: the wall spots around the
   * midpoint between it and each other pawn.
   */
  method ShortcutPositions(rows: int, cols: int, coords: seq<Coord>, me: int) returns (positions: set<Coord>)
    requires 0 <= me < |coords|
    ensures forall c :: c in positions <==> WallSpot(rows, cols, c) && NearMidpoint(coords, me, |coords|, c)
  {
    positions := {};
    for i := 0 to |coords|
      invariant forall c :: c in positions <==> WallSpot(rows, cols, c) && NearMidpoint(coords, me, i, c)
    {
      if i != me {
        var m := Midpoint(coords[me], coords[i]);
        positions := AddBlock(rows, cols, positions, m);
        forall c | WallSpot(rows, cols, c) && NearMidpoint(coords, me, i + 1, c)
          ensures c in positions
        {
          var j :| 0 <= j < i + 1 && j != me && Around(Midpoint(coords[me], coords[j]), c);
          if j < i {
            assert NearMidpoint(coords, me, i, c);
          }
        }
      } else {
        forall c | NearMidpoint(coords, me, i + 1, c)
          ensures NearMidpoint(coords, me, i, c)
        {
          var j :| 0 <= j < i + 1 && j != me && Around(Midpoint(coords[me], coords[j]), c);
        }
      }
    }
  }

  /** What pawn `i` adds to the strategic positions of the AI moving pawn `me`. */
  ghost predicate Contributes(rows: int, cols: int, coords: seq<Coord>, paths: seq<Option<seq<Coord>>>,
                              me: int, i: int, c: Coord)
    requires 0 <= me < |coords| && 0 <= i < |coords| == |paths|
  {
    || Manhattan(c, coords[i]) <= 2
    || c in PathBlockingSet(rows, cols, i, coords[i], paths[i])
    || (i == me && NearMidpoint(coords, me, |coords|, c))
  }

  /** `c` is a strategic position: some pawn contributes it. */
  ghost predicate Strategic(rows: int, cols: int, coords: seq<Coord>, paths: seq<Option<seq<Coord>>>, me: int, c: Coord)
    requires 0 <= me < |coords| == |paths|
  {
    exists i :: 0 <= i < |coords| && Contributes(rows, cols, coords, paths, me, i, c)
  }

  /**
   * `_get_strategic_positions`: for the pawns at `coords` (with shortest
   * paths `paths`), the wall spots near a pawn, cutting its path, or, for
   * the moving pawn `me`, around a midpoint with an opponent.
   */
  method StrategicPositions(rows: int, cols: int, coords: seq<Coord>, paths: seq<Option<seq<Coord>>>, me: int)
    returns (positions: set<Coord>)
    requires 0 <= me < |coords| == |paths|
    ensures forall c :: c in positions <==> WallSpot(rows, cols, c) && Strategic(rows, cols, coords, paths, me, c)
  {
    var found: set<Coord> := {};
    for i := 0 to |coords|
      invariant forall c :: WallSpot(rows, cols, c) ==>
        (c in found <==> exists j :: 0 <= j < i && Contributes(rows, cols, coords, paths, me, j, c))
    {
      var near := PositionsNearPawn(rows, cols, coords[i], 2);
      var blocking := PathBlockingPositions(rows, cols, i, coords[i], paths[i]);
      var shortcut: set<Coord> := {};
      if i == me {
        shortcut := ShortcutPositions(rows, cols, coords, me);
      }
      found := found + near + blocking + shortcut;
      forall c | WallSpot(rows, cols, c)
        ensures c in found <==> exists j :: 0 <= j < i + 1 && Contributes(rows, cols, coords, paths, me, j, c)
      {
        if c in found && !(exists j :: 0 <= j < i && Contributes(rows, cols, coords, paths, me, j, c)) {
          assert Contributes(rows, cols, coords, paths, me, i, c);
        }
      }
    }
    positions := set c | c in found && WallSpot(rows, cols, c);
  }

  /** The strategic positions as a set: the wall spots some pawn contributes. */
  ghost function StrategicSpots(rows: int, cols: int, coords: seq<Coord>, paths: seq<Option<seq<Coord>>>, me: int): (r: set<Coord>)
    requires 0 <= me < |coords| == |paths|
    ensures forall c :: c in r <==> WallSpot(rows, cols, c) && Strategic(rows, cols, coords, paths, me, c)
  {
    set row, col | 0 <= row < rows - 1 && 0 <= col < cols - 1 && Strategic(rows, cols, coords, paths, me, Coord(row, col))
      :: Coord(row, col)
  }
}
