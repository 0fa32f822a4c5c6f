/**
 * The game state of the board (entities/board.py): the placed walls, the
 * path flags of the cells, the pawns and whose turn it is, and the
 * operations that change them: putting and removing walls, the wall
 * legality test, the power bomb, turn rotation and applying a player's
 * action.
 */
module Boards {
  import opened Wrappers
  import opened Geometry
  import Config
  import opened Walls
  import opened Pawns
  import opened Actions

  /** One path flag of one cell, `Cell.set_path(dir, value)`, keyed by cell and direction. */
  datatype Flag = Flag(cell: Coord, dir: nat)

  /**
   * `Pawn.can_reach_goal`, which searches the cell grid (not part of this
   * model): whether the pawn can still reach its goal with the given walls.
   */
  type Reach = (set<Slot>, Pawn) -> bool

  /**
   * The game-relevant content of a board. `walls` maps the identity of each
   * placed wall to its owner, the way the `walls` set holds one wall per
   * (coord, orientation).
   */
  datatype Game = Game(
    rows: int,
    cols: int,
    numPlayers: int,
    player: int,
    walls: map<Slot, Option<nat>>,
    paths: map<Flag, bool>,
    pawns: seq<Pawn>)
  {
    /** One pawn per player, at least two players, and a current player among them. */
    predicate WellFormed()
    {
      2 <= numPlayers == |pawns| && 0 <= player < numPlayers
    }

    /** `current_player`. */
    function Current(): Pawn
      requires WellFormed()
    {
      pawns[player]
    }
  }

  /** `in_range`: the coordinate lies on the board. */
  predicate InRange(rows: int, cols: int, c: Coord)
  {
    0 <= c.col < cols && 0 <= c.row < rows
  }

  /** The placed wall with identity `s`, owner included. */
  function WallAt(walls: map<Slot, Option<nat>>, s: Slot): Wall
    requires s in walls
  {
    Wall(s.coord, s.horiz, walls[s])
  }

  /**
   * The flags a wall switches off when put and on when removed: the S flag
   * of its cell and of the cell to the east for a horizontal wall, the W
   * flag of its cell and of the cell below for a vertical one, skipping
   * cells off the board.
   */
  function WallFlags(rows: int, cols: int, s: Slot): set<Flag>
  {
    var i, j := s.coord.row, s.coord.col;
    var second := if s.horiz then Coord(i, j + 1) else Coord(i + 1, j);
    var dir := if s.horiz then Config.S else Config.W;
    (if InRange(rows, cols, Coord(i, j)) then {Flag(Coord(i, j), dir)} else {})
    + (if InRange(rows, cols, second) then {Flag(second, dir)} else {})
  }

  /** The flags of all walls in `ds`. */
  function UnionFlags(rows: int, cols: int, ds: set<Slot>): set<Flag>
  {
    set s, f | s in ds && f in WallFlags(rows, cols, s) :: f
  }

  /** `paths` with every flag in `fs` set to `v`. */
  function SetFlags(paths: map<Flag, bool>, fs: set<Flag>, v: bool): map<Flag, bool>
  {
    map f | f in paths.Keys + fs :: if f in fs then v else paths[f]
  }

  /** `putWall`: nothing changes if the wall is already there. */
  function PutWallGame(g: Game, w: Wall): Game
  {
    if w.Key() in g.walls then g
    else g.(walls := g.walls[w.Key() := w.owner],
            paths := SetFlags(g.paths, WallFlags(g.rows, g.cols, w.Key()), false))
  }

  /** `removeWall`: nothing changes if the wall is not there. */
  function RemoveWallGame(g: Game, w: Wall): Game
  {
    if w.Key() !in g.walls then g
    else g.(walls := g.walls - {w.Key()},
            paths := SetFlags(g.paths, WallFlags(g.rows, g.cols, w.Key()), true))
  }

  /** Every flag the wall switches off is present and on. */
  predicate FlagsOpen(g: Game, s: Slot)
  {
    forall f :: f in WallFlags(g.rows, g.cols, s) ==> f in g.paths && g.paths[f]
  }

  /** Every flag of every placed wall is present and off. */
  predicate WallsClosed(g: Game)
  {
    forall s, f :: s in g.walls && f in WallFlags(g.rows, g.cols, s) ==> f in g.paths && !g.paths[f]
  }

  lemma SetFlagsIdentity(paths: map<Flag, bool>, fs: set<Flag>, v: bool)
    requires forall f :: f in fs ==> f in paths && paths[f] == v
    ensures SetFlags(paths, fs, v) == paths
  {
  }

  lemma SetFlagsTwice(paths: map<Flag, bool>, a: set<Flag>, b: set<Flag>, v: bool)
    ensures SetFlags(SetFlags(paths, a, v), b, v) == SetFlags(paths, a + b, v)
  {
  }

  /**
   * Switching flags off and then on again (or on and then off) restores
   * them exactly when they all had the restored value to begin with.
   */
  lemma SetFlagsUndo(paths: map<Flag, bool>, fs: set<Flag>, v: bool)
    requires forall f :: f in fs ==> f in paths && paths[f] == v
    ensures SetFlags(SetFlags(paths, fs, !v), fs, v) == paths
  {
    var p1 := SetFlags(paths, fs, !v);
    var p2 := SetFlags(p1, fs, v);
    assert p2.Keys == paths.Keys;
    forall f | f in paths
      ensures p2[f] == paths[f]
    {
    }
  }

  /**
   * Putting a new wall and removing it again gives back the same walls, and
   * the same flags when the wall's flags were on beforehand; a put of a
   * wall already placed changes nothing.
   */
  lemma PutRemoveRoundTrip(g: Game, w: Wall)
    ensures w.Key() in g.walls ==> PutWallGame(g, w) == g
    ensures w.Key() !in g.walls ==> RemoveWallGame(PutWallGame(g, w), w).walls == g.walls
    ensures w.Key() !in g.walls && FlagsOpen(g, w.Key()) ==> RemoveWallGame(PutWallGame(g, w), w) == g
  {
    if w.Key() !in g.walls {
      var g2 := RemoveWallGame(PutWallGame(g, w), w);
      assert g2.walls == g.walls;
      if FlagsOpen(g, w.Key()) {
        SetFlagsUndo(g.paths, WallFlags(g.rows, g.cols, w.Key()), true);
      }
    }
  }

  /** Any placed wall colliding with `w`. */
  predicate CollidesAny(walls: map<Slot, Option<nat>>, w: Wall)
  {
    exists s :: s in walls && Collides(w, WallAt(walls, s))
  }

  /**
   * What `can_put_wall` answers: the current player has walls left, the
   * wall collides with no placed wall, and with it added every pawn can
   * still reach its goal.
   */
  predicate CanPutWall(g: Game, w: Wall, reach: Reach)
    requires g.WellFormed()
  {
    g.Current().walls != 0
    && !CollidesAny(g.walls, w)
    && forall i :: 0 <= i < |g.pawns| ==> reach(g.walls.Keys + {w.Key()}, g.pawns[i])
  }

  /** A wall already on the board is always rejected. */
  lemma PlacedWallRejected(g: Game, w: Wall, reach: Reach)
    requires g.WellFormed() && w.Key() in g.walls
    ensures !CanPutWall(g, w, reach)
  {
    CollidesSame(w, WallAt(g.walls, w.Key()));
  }

  /**
   * `wall_affects_coord`: both orientations test the same four cells, the
   * wall's cell and its neighbours to the east, south and south-east.
   */
  function WallAffectsCoord(w: Wall, c: Coord): (r: bool)
    ensures r <==> w.coord.row <= c.row <= w.coord.row + 1 && w.coord.col <= c.col <= w.coord.col + 1
  {
    var wc := w.coord;
    if w.horiz then
      (c.row == wc.row && c.col == wc.col) || (c.row == wc.row && c.col == wc.col + 1)
      || (c.row == wc.row + 1 && c.col == wc.col) || (c.row == wc.row + 1 && c.col == wc.col + 1)
    else
      (c.row == wc.row && c.col == wc.col) || (c.row == wc.row && c.col == wc.col + 1)
      || (c.row == wc.row + 1 && c.col == wc.col) || (c.row == wc.row + 1 && c.col == wc.col + 1)
  }

  /** The cells a power bomb at `center` sweeps: its 3x3 block, on the board. */
  predicate InBlast(rows: int, cols: int, center: Coord, c: Coord)
  {
    InRange(rows, cols, c) && Abs(c.row - center.row) <= 1 && Abs(c.col - center.col) <= 1
  }

  /** The wall touches a swept cell. */
  ghost predicate Hit(rows: int, cols: int, center: Coord, w: Wall)
  {
    exists c :: InBlast(rows, cols, center, c) && WallAffectsCoord(w, c)
  }

  /** Identities of the placed walls a power bomb at `center` destroys. */
  ghost function Blasted(g: Game, center: Coord): set<Slot>
  {
    set s | s in g.walls && Hit(g.rows, g.cols, center, WallAt(g.walls, s))
  }

  /** How many of the walls in `ds` belong to player `o`. */
  function Tally(walls: map<Slot, Option<nat>>, ds: set<Slot>, o: nat): nat
  {
    |set s | s in ds && s in walls && walls[s] == Some(o)|
  }

  /** `walls` without the identities in `ds`. */
  function Without(walls: map<Slot, Option<nat>>, ds: set<Slot>): map<Slot, Option<nat>>
  {
    map s | s in walls && s !in ds :: walls[s]
  }

  /** Each pawn gets back `Tally` walls for the destroyed walls it owned. */
  function Refunded(pawns: seq<Pawn>, walls: map<Slot, Option<nat>>, ds: set<Slot>): (r: seq<Pawn>)
    ensures |r| == |pawns|
  {
    seq(|pawns|, i requires 0 <= i < |pawns| => pawns[i].(walls := pawns[i].walls + Tally(walls, ds, i)))
  }

  /**
   * `execute_power_bomb`: the walls touching the swept cells are removed
   * (their flags switched back on) and returned to their owners.
   */
  ghost function BombGame(g: Game, center: Coord): Game
  {
    var ds := Blasted(g, center);
    g.(walls := Without(g.walls, ds),
       paths := SetFlags(g.paths, UnionFlags(g.rows, g.cols, ds), true),
       pawns := Refunded(g.pawns, g.walls, ds))
  }

  /**
   * After a power bomb no wall left touches a swept cell, the walls that
   * touched none are kept with their owners, and every pawn has gained
   * exactly one wall per destroyed wall it owned.
   */
  lemma BombEffects(g: Game, center: Coord)
    ensures var g2 := BombGame(g, center);
      && (forall s, c :: s in g2.walls && InBlast(g.rows, g.cols, center, c) ==> !WallAffectsCoord(WallAt(g2.walls, s), c))
      && (forall s :: s in g.walls && !Hit(g.rows, g.cols, center, WallAt(g.walls, s)) ==> s in g2.walls && g2.walls[s] == g.walls[s])
      && (forall s :: s in g.walls && s !in g2.walls ==> Hit(g.rows, g.cols, center, WallAt(g.walls, s)))
      && (forall i :: 0 <= i < |g.pawns| ==>
            g2.pawns[i] == g.pawns[i].(walls := g.pawns[i].walls + Tally(g.walls, Blasted(g, center), i)))
  {
  }

  /** `next_player`. */
  function NextPlayer(player: int, numPlayers: int): int
    requires 0 < numPlayers
  {
    (player + 1) % numPlayers
  }

  /** The move history after moving from `from`: it keeps the last four cells. */
  function PushHistory(history: seq<Coord>, from: Coord): seq<Coord>
  {
    var h := history + [from];
    if |h| > 4 then h[1..] else h
  }

  /** The history never grows past four cells and always ends with the cell just left. */
  lemma HistoryBounded(history: seq<Coord>, from: Coord)
    requires |history| <= 4
    ensures var h := PushHistory(history, from);
      |h| <= 4 && |h| == (if |history| == 4 then 4 else |history| + 1)
      && h[|h| - 1] == from
      && h == (history + [from])[|history| + 1 - |h|..]
  {
  }

  /** The state part of `Board.do_action`. */
  ghost function BoardDoAction(g: Game, a: Action): Game
    requires g.WellFormed()
  {
    var p := g.player;
    match a
    case PlaceWall(c, h) =>
      var g1 := PutWallGame(g, Wall(c, h, Some(g.Current().id)));
      g1.(pawns := g1.pawns[p := g1.pawns[p].(walls := g1.pawns[p].walls - 1)])
    case PowerBomb(center) =>
      var g1 := BombGame(g, center);
      g1.(pawns := g1.pawns[p := g1.pawns[p].(bombs := g1.pawns[p].bombs - 1)])
    case MovePawn(_, dest) =>
      var cur := g.Current();
      g.(pawns := g.pawns[p := cur.(lastCoord := Some(cur.coord),
                                    history := PushHistory(cur.history, cur.coord),
                                    coord := dest)])
  }

  /** `finished`: some pawn stands on one of its goal cells. */
  predicate Finished(pawns: seq<Pawn>): (r: bool)
    ensures r <==> exists i :: 0 <= i < |pawns| && pawns[i].coord in pawns[i].goals
  {
    if pawns == [] then false
    else pawns[0].coord in pawns[0].goals || Finished(pawns[1..])
  }

  /**
   * A move onto one of the mover's goal cells finishes the game, and from
   * an unfinished game only such a move does: `finished` is tested right
   * after every move.
   */
  lemma FinishedAfterMove(g: Game, orig: Coord, dest: Coord)
    requires g.WellFormed() && !Finished(g.pawns)
    ensures Finished(BoardDoAction(g, MovePawn(orig, dest)).pawns) <==> dest in g.Current().goals
  {
    var ps := BoardDoAction(g, MovePawn(orig, dest)).pawns;
    if dest in g.Current().goals {
      assert ps[g.player].coord in ps[g.player].goals;
    }
    if Finished(ps) {
      var i :| 0 <= i < |ps| && ps[i].coord in ps[i].goals;
      if i != g.player {
        assert g.pawns[i].coord in g.pawns[i].goals;
      }
    }
  }

  /**
   * The flags a wall at a wall spot (a cell with a row below and a column
   * to its east) switches are always two: `in_range` never drops one.
   */
  lemma SpotFlagsInRange(rows: int, cols: int, s: Slot)
    requires 0 <= s.coord.row < rows - 1 && 0 <= s.coord.col < cols - 1
    ensures |WallFlags(rows, cols, s)| == 2
    ensures forall f :: f in WallFlags(rows, cols, s) ==> InRange(rows, cols, f.cell)
  {
    var i, j := s.coord.row, s.coord.col;
    var dir := if s.horiz then Config.S else Config.W;
    var second := if s.horiz then Coord(i, j + 1) else Coord(i + 1, j);
    assert WallFlags(rows, cols, s) == {Flag(Coord(i, j), dir), Flag(second, dir)};
  }

  /** A flag some wall can switch: the S or the W side of a cell on the board. */
  predicate WallFlag(rows: int, cols: int, f: Flag)
  {
    InRange(rows, cols, f.cell) && (f.dir == Config.S || f.dir == Config.W)
  }

  /** Some placed wall has switched `f` off. */
  ghost predicate ClosedByWall(g: Game, f: Flag)
  {
    exists s :: s in g.walls && f in WallFlags(g.rows, g.cols, s)
  }

  /**
   * How the walls and the flags of a board agree: no two placed walls
   * collide, and every side of a cell that a wall can close has a flag,
   * off exactly when some placed wall closes it.
   */
  ghost predicate Consistent(g: Game)
  {
    && (forall s, t :: s in g.walls && t in g.walls && s != t ==> !Collides(WallAt(g.walls, s), WallAt(g.walls, t)))
    && (forall f :: WallFlag(g.rows, g.cols, f) ==> f in g.paths && (g.paths[f] <==> !ClosedByWall(g, f)))
  }

  lemma WallFlagsAreWallFlags(rows: int, cols: int, s: Slot)
    ensures forall f :: f in WallFlags(rows, cols, s) ==> WallFlag(rows, cols, f)
  {
  }

  /** Two walls that switch a common flag collide. */
  lemma SharedFlagCollides(rows: int, cols: int, a: Wall, b: Wall, f: Flag)
    requires f in WallFlags(rows, cols, a.Key()) && f in WallFlags(rows, cols, b.Key())
    ensures Collides(a, b)
  {
    CollidesGeometry(a, b);
  }

  /** On a consistent board every placed wall has its flags off. */
  lemma ConsistentClosed(g: Game)
    requires Consistent(g)
    ensures WallsClosed(g)
  {
    forall s, f | s in g.walls && f in WallFlags(g.rows, g.cols, s)
      ensures f in g.paths && !g.paths[f]
    {
      WallFlagsAreWallFlags(g.rows, g.cols, s);
      assert ClosedByWall(g, f);
    }
  }

  /**
   * On a consistent board a wall that collides with no placed wall is new
   * and has all its flags on.
   */
  lemma FreeWallOpen(g: Game, w: Wall)
    requires Consistent(g) && !CollidesAny(g.walls, w)
    ensures w.Key() !in g.walls && FlagsOpen(g, w.Key())
  {
    if w.Key() in g.walls {
      CollidesSame(w, WallAt(g.walls, w.Key()));
    }
    forall f | f in WallFlags(g.rows, g.cols, w.Key())
      ensures f in g.paths && g.paths[f]
    {
      WallFlagsAreWallFlags(g.rows, g.cols, w.Key());
      if ClosedByWall(g, f) {
        var s :| s in g.walls && f in WallFlags(g.rows, g.cols, s);
        SharedFlagCollides(g.rows, g.cols, w, WallAt(g.walls, s), f);
      }
    }
  }

  /**
   * `can_put_wall` switches the flags of a wall it tries off and on again;
   * on a consistent board the wall is free, its flags were on, and the
   * probe leaves every flag as it found it.
   */
  lemma ProbeKeepsFlags(g: Game, w: Wall)
    requires Consistent(g) && !CollidesAny(g.walls, w)
    ensures SetFlags(g.paths, WallFlags(g.rows, g.cols, w.Key()), true) == g.paths
  {
    FreeWallOpen(g, w);
    SetFlagsIdentity(g.paths, WallFlags(g.rows, g.cols, w.Key()), true);
  }

  /** Putting a wall that collides with no placed wall keeps the board consistent. */
  lemma PutKeepsConsistent(g: Game, w: Wall)
    requires Consistent(g) && !CollidesAny(g.walls, w)
    ensures Consistent(PutWallGame(g, w))
  {
    FreeWallOpen(g, w);
    var k := w.Key();
    var g2 := PutWallGame(g, w);
    assert WallAt(g2.walls, k) == w;
    forall s, t | s in g2.walls && t in g2.walls && s != t
      ensures !Collides(WallAt(g2.walls, s), WallAt(g2.walls, t))
    {
      if s == k {
        assert WallAt(g2.walls, t) == WallAt(g.walls, t);
      } else if t == k {
        assert WallAt(g2.walls, s) == WallAt(g.walls, s);
        CollidesSymmetric(w, WallAt(g.walls, s));
      } else {
        assert WallAt(g2.walls, s) == WallAt(g.walls, s) && WallAt(g2.walls, t) == WallAt(g.walls, t);
      }
    }
    forall f | WallFlag(g.rows, g.cols, f)
      ensures f in g2.paths && (g2.paths[f] <==> !ClosedByWall(g2, f))
    {
      if f in WallFlags(g.rows, g.cols, k) {
        assert k in g2.walls;
      } else {
        if ClosedByWall(g2, f) {
          var s :| s in g2.walls && f in WallFlags(g.rows, g.cols, s);
          assert s in g.walls;
        }
        if ClosedByWall(g, f) {
          var s :| s in g.walls && f in WallFlags(g.rows, g.cols, s);
          assert s in g2.walls;
        }
      }
    }
  }

  /**
   * Taking placed walls off a consistent board (and switching their flags
   * back on) keeps it consistent: no wall left shares a flag with one
   * taken off.
   */
  lemma TakeOffKeepsConsistent(g: Game, ds: set<Slot>)
    requires Consistent(g) && ds <= g.walls.Keys
    ensures Consistent(g.(walls := Without(g.walls, ds), paths := SetFlags(g.paths, UnionFlags(g.rows, g.cols, ds), true)))
  {
    var g2 := g.(walls := Without(g.walls, ds), paths := SetFlags(g.paths, UnionFlags(g.rows, g.cols, ds), true));
    forall s, t | s in g2.walls && t in g2.walls && s != t
      ensures !Collides(WallAt(g2.walls, s), WallAt(g2.walls, t))
    {
      assert WallAt(g2.walls, s) == WallAt(g.walls, s) && WallAt(g2.walls, t) == WallAt(g.walls, t);
    }
    forall f | WallFlag(g.rows, g.cols, f)
      ensures f in g2.paths && (g2.paths[f] <==> !ClosedByWall(g2, f))
    {
      if f in UnionFlags(g.rows, g.cols, ds) {
        var d :| d in ds && f in WallFlags(g.rows, g.cols, d);
        if ClosedByWall(g2, f) {
          var s :| s in g2.walls && f in WallFlags(g.rows, g.cols, s);
          SharedFlagCollides(g.rows, g.cols, WallAt(g.walls, s), WallAt(g.walls, d), f);
        }
      } else {
        if ClosedByWall(g, f) {
          var s :| s in g.walls && f in WallFlags(g.rows, g.cols, s);
          assert s !in ds;
          assert s in g2.walls;
        }
      }
    }
  }

  /** Removing a wall keeps the board consistent. */
  lemma RemoveKeepsConsistent(g: Game, w: Wall)
    requires Consistent(g)
    ensures Consistent(RemoveWallGame(g, w))
  {
    var k := w.Key();
    if k in g.walls {
      TakeOffKeepsConsistent(g, {k});
      assert Without(g.walls, {k}) == g.walls - {k};
      assert UnionFlags(g.rows, g.cols, {k}) == WallFlags(g.rows, g.cols, k);
    }
  }

  /** A power bomb keeps the board consistent. */
  lemma BombKeepsConsistent(g: Game, center: Coord)
    requires Consistent(g)
    ensures Consistent(BombGame(g, center))
  {
    TakeOffKeepsConsistent(g, Blasted(g, center));
  }

  /**
   * `Board.do_action` keeps the board consistent, provided a wall it puts
   * collides with no placed wall (as `can_put_wall` guarantees).
   */
  lemma DoActionKeepsConsistent(g: Game, a: Action)
    requires g.WellFormed() && Consistent(g)
    requires a.PlaceWall? ==> !CollidesAny(g.walls, Wall(a.coord, a.horiz, None))
    ensures Consistent(BoardDoAction(g, a))
  {
    match a
    case PlaceWall(c, h) =>
      var w := Wall(c, h, Some(g.Current().id));
      var w0 := Wall(c, h, None);
      assert Cells(w) == Cells(w0);
      forall s | s in g.walls
        ensures !Collides(w, WallAt(g.walls, s))
      {
        assert !Collides(w0, WallAt(g.walls, s));
      }
      PutKeepsConsistent(g, w);
    case PowerBomb(center) => BombKeepsConsistent(g, center);
    case MovePawn(_, _) =>
  }

  /** The position of `Same(w, _)` in a list, as Python's `in` on a list of walls tests it. */
  predicate ListHas(ws: seq<Wall>, w: Wall)
  {
    exists i :: 0 <= i < |ws| && Same(ws[i], w)
  }

  /** Identities of the walls in a list. */
  function KeysOf(ws: seq<Wall>): set<Slot>
  {
    set i | 0 <= i < |ws| :: ws[i].Key()
  }

  /** How many walls of the list belong to player `o`. */
  function CountOwned(ws: seq<Wall>, o: nat): nat
  {
    if ws == [] then 0
    else CountOwned(ws[..|ws| - 1], o) + (if ws[|ws| - 1].owner == Some(o) then 1 else 0)
  }

  /** The front of a listing is a listing that does not hold its last wall. */
  lemma ListedFront(walls: map<Slot, Option<nat>>, front: seq<Wall>, last: Wall)
    requires Listed(walls, front + [last])
    ensures Listed(walls, front) && last.Key() !in KeysOf(front)
    ensures last.Key() in walls && last == WallAt(walls, last.Key())
  {
    var ws := front + [last];
    assert ws[|front|] == last;
    forall i | 0 <= i < |front|
      ensures front[i].Key() in walls && front[i] == WallAt(walls, front[i].Key()) && front[i].Key() != last.Key()
    {
      assert ws[i] == front[i];
    }
    forall i, j | 0 <= i < j < |front|
      ensures front[i].Key() != front[j].Key()
    {
      assert ws[i] == front[i] && ws[j] == front[j];
    }
  }

  /**
   * Counting the owners along a list of distinct walls taken from `walls`
   * gives the tally of their identities.
   */
  lemma {:induction false} CountOwnedTally(ws: seq<Wall>, walls: map<Slot, Option<nat>>, o: nat)
    requires Listed(walls, ws)
    ensures CountOwned(ws, o) == Tally(walls, KeysOf(ws), o)
  {
    if ws != [] {
      var front, last := ws[..|ws| - 1], ws[|ws| - 1];
      assert ws == front + [last];
      ListedFront(walls, front, last);
      CountOwnedTally(front, walls, o);
      KeysOfAppend(front, last);
      TallyAdd(walls, KeysOf(front), last.Key(), o);
    }
  }

  /** Adding one identity to a tally adds one exactly when that wall is `o`'s. */
  lemma TallyAdd(walls: map<Slot, Option<nat>>, ds: set<Slot>, k: Slot, o: nat)
    requires k !in ds
    ensures Tally(walls, ds + {k}, o) == Tally(walls, ds, o) + (if k in walls && walls[k] == Some(o) then 1 else 0)
  {
    var before := set s | s in ds && s in walls && walls[s] == Some(o);
    var after := set s | s in ds + {k} && s in walls && walls[s] == Some(o);
    if k in walls && walls[k] == Some(o) {
      assert after == before + {k};
    } else {
      assert after == before;
    }
  }

  /** Identities of the placed walls that touch cell `c`. */
  ghost function HitCell(walls: map<Slot, Option<nat>>, c: Coord): set<Slot>
  {
    set s | s in walls && WallAffectsCoord(WallAt(walls, s), c)
  }

  /** Cells of the block swept before step (`dr`, `dc`) of the row-major scan. */
  ghost predicate SweptBefore(center: Coord, dr: int, dc: int, c: Coord)
  {
    c.row - center.row < dr || (c.row - center.row == dr && c.col - center.col < dc)
  }

  /** Identities of the placed walls that touch some cell of `done`. */
  ghost function HitDone(walls: map<Slot, Option<nat>>, done: set<Coord>): set<Slot>
  {
    set s | s in walls && exists c :: c in done && WallAffectsCoord(WallAt(walls, s), c)
  }

  lemma HitDoneAdd(walls: map<Slot, Option<nat>>, done: set<Coord>, c: Coord)
    ensures HitDone(walls, done + {c}) == HitDone(walls, done) + HitCell(walls, c)
  {
  }

  lemma HitDoneBlast(g: Game, center: Coord, done: set<Coord>)
    requires forall c :: c in done <==> InBlast(g.rows, g.cols, center, c)
    ensures HitDone(g.walls, done) == Blasted(g, center)
  {
  }

  lemma KeysOfAppend(ws: seq<Wall>, w: Wall)
    ensures KeysOf(ws + [w]) == KeysOf(ws) + {w.Key()}
  {
    var r := ws + [w];
    assert r[|ws|] == w;
    forall k | k in KeysOf(ws)
      ensures k in KeysOf(r)
    {
      var i :| 0 <= i < |ws| && ws[i].Key() == k;
      assert r[i] == ws[i];
    }
  }

  lemma UnionFlagsAdd(rows: int, cols: int, ds: set<Slot>, s: Slot)
    ensures UnionFlags(rows, cols, ds + {s}) == UnionFlags(rows, cols, ds) + WallFlags(rows, cols, s)
  {
  }

  /** Taking `w` out of the walls still to sweep adds its identity to those swept. */
  lemma SweptKeysStep(toRemove: set<Wall>, rest: set<Wall>, w: Wall)
    requires rest <= toRemove && w in rest
    ensures (set v | v in toRemove - (rest - {w}) :: v.Key()) == (set v | v in toRemove - rest :: v.Key()) + {w.Key()}
  {
    assert toRemove - (rest - {w}) == (toRemove - rest) + {w};
  }

  /** `ds` lists distinct walls of `walls`, each with the owner it has there. */
  predicate Listed(walls: map<Slot, Option<nat>>, ds: seq<Wall>)
  {
    && (forall i :: 0 <= i < |ds| ==> ds[i].Key() in walls && ds[i] == WallAt(walls, ds[i].Key()))
    && (forall i, j :: 0 <= i < j < |ds| ==> ds[i].Key() != ds[j].Key())
  }

  /** A wall is listed exactly when its identity is among the listed ones. */
  lemma ListHasKeys(ws: seq<Wall>, w: Wall)
    ensures ListHas(ws, w) <==> w.Key() in KeysOf(ws)
  {
    if w.Key() in KeysOf(ws) {
      var i :| 0 <= i < |ws| && ws[i].Key() == w.Key();
      assert Same(ws[i], w);
    }
  }

  /**
   * Bookkeeping of a sweep in progress: `destroyed` lists distinct walls
   * taken from `w0` with their owners, and the board holds `w0` without
   * them, with their flags switched on.
   */
  ghost predicate SweptState(rows: int, cols: int, w0: map<Slot, Option<nat>>, p0: map<Flag, bool>, s0: Option<string>,
                             destroyed: seq<Wall>, walls: map<Slot, Option<nat>>, paths: map<Flag, bool>, state: Option<string>)
  {
    && Listed(w0, destroyed)
    && walls == Without(w0, KeysOf(destroyed))
    && paths == SetFlags(p0, UnionFlags(rows, cols, KeysOf(destroyed)), true)
    && state == (if destroyed == [] then s0 else None)
  }

  lemma WithoutAdd(w0: map<Slot, Option<nat>>, ds: set<Slot>, k: Slot)
    ensures Without(w0, ds + {k}) == Without(w0, ds) - {k}
  {
  }

  lemma ListedAppend(w0: map<Slot, Option<nat>>, destroyed: seq<Wall>, w: Wall)
    requires Listed(w0, destroyed)
    requires w.Key() in w0 && w.Key() !in KeysOf(destroyed) && w == WallAt(w0, w.Key())
    ensures Listed(w0, destroyed + [w])
  {
    var d2 := destroyed + [w];
    forall i, j | 0 <= i < j < |d2|
      ensures d2[i].Key() != d2[j].Key()
    {
      assert d2[i] == destroyed[i];
      if j < |destroyed| {
        assert d2[j] == destroyed[j];
      }
    }
  }

  /** Listing one more wall of `w0` and removing it keeps the bookkeeping. */
  lemma SweptAppend(rows: int, cols: int, w0: map<Slot, Option<nat>>, p0: map<Flag, bool>, s0: Option<string>,
                    destroyed: seq<Wall>, walls: map<Slot, Option<nat>>, paths: map<Flag, bool>, state: Option<string>, w: Wall)
    requires SweptState(rows, cols, w0, p0, s0, destroyed, walls, paths, state)
    requires w.Key() in w0 && w.Key() !in KeysOf(destroyed) && w == WallAt(w0, w.Key())
    ensures w.Key() in walls
    ensures SweptState(rows, cols, w0, p0, s0, destroyed + [w], walls - {w.Key()},
                       SetFlags(paths, WallFlags(rows, cols, w.Key()), true), None)
  {
    KeysOfAppend(destroyed, w);
    UnionFlagsAdd(rows, cols, KeysOf(destroyed), w.Key());
    SetFlagsTwice(p0, UnionFlags(rows, cols, KeysOf(destroyed)), WallFlags(rows, cols, w.Key()), true);
    ListedAppend(w0, destroyed, w);
    WithoutAdd(w0, KeysOf(destroyed), w.Key());
  }

  /**
   * `counts` holds, for each owner below `numPawns` that owns some wall of
   * `ds`, how many it owns, and no other key.
   */
  ghost predicate OwnerCounts(ds: seq<Wall>, numPawns: int, counts: map<nat, nat>)
  {
    && (forall o: nat :: o in counts <==> o < numPawns && CountOwned(ds, o) > 0)
    && (forall o :: o in counts ==> counts[o] == CountOwned(ds, o))
  }

  /** `counts[owner] = counts.get(owner, 0) + 1` for an owner below `numPawns`. */
  function CountOne(counts: map<nat, nat>, w: Wall, numPawns: int): map<nat, nat>
  {
    if w.owner.Some? && w.owner.value < numPawns then
      counts[w.owner.value := (if w.owner.value in counts then counts[w.owner.value] else 0) + 1]
    else counts
  }

  /** Counting one more wall keeps the counts exact. */
  lemma OwnerCountsAppend(ds: seq<Wall>, numPawns: int, counts: map<nat, nat>, w: Wall)
    requires OwnerCounts(ds, numPawns, counts)
    ensures OwnerCounts(ds + [w], numPawns, CountOne(counts, w, numPawns))
  {
    assert (ds + [w])[..|ds|] == ds;
  }

  /**
   * The `wall_counts` dictionary of `execute_power_bomb`: for each owner
   * below `numPawns`, how many of the destroyed walls it owned.
   */
  method CountOwners(destroyed: seq<Wall>, numPawns: int) returns (counts: map<nat, nat>)
    ensures OwnerCounts(destroyed, numPawns, counts)
  {
    counts := map[];
    var k := 0;
    while k < |destroyed|
      invariant 0 <= k <= |destroyed|
      invariant OwnerCounts(destroyed[..k], numPawns, counts)
    {
      assert destroyed[..k + 1] == destroyed[..k] + [destroyed[k]];
      OwnerCountsAppend(destroyed[..k], numPawns, counts, destroyed[k]);
      counts := CountOne(counts, destroyed[k], numPawns);
      k := k + 1;
    }
    assert destroyed[..|destroyed|] == destroyed;
  }

  class Board {
    const rows: int
    const cols: int
    const numPlayers: int
    var player: int
    var walls: map<Slot, Option<nat>>
    var paths: map<Flag, bool>
    var pawns: seq<Pawn>
    /** `_state`: the memoised state string, `None` once a change invalidates it. */
    var state: Option<string>

    function Snapshot(): Game
      reads this
    {
      Game(rows, cols, numPlayers, player, walls, paths, pawns)
    }

    /**
     * A board of the given size with no walls, the first player to move,
     * `DEFAULT_NUM_PLAYERS` pawns and the flags the cells start with. The
     * pawns are built outside the board (the `Pawn` constructor is not
     * part of this model), where the board builds them: the first on the
     * last row, the second on row 0, both in column `cols >> 1` and with
     * `walls_per_player` walls. Every side of a cell starts open.
     */
    constructor (rows: int, cols: int, wallsPerPlayer: int, pawns: seq<Pawn>, paths: map<Flag, bool>)
      requires |pawns| == Config.DefaultNumPlayers
      requires pawns[0].colour == ColourA && pawns[0].coord == Coord(rows - 1, cols / 2)
      requires pawns[1].colour == ColourB && pawns[1].coord == Coord(0, cols / 2)
      requires pawns[0].walls == wallsPerPlayer && pawns[1].walls == wallsPerPlayer
      requires forall f :: WallFlag(rows, cols, f) ==> f in paths && paths[f]
      ensures Snapshot() == Game(rows, cols, Config.DefaultNumPlayers, 0, map[], paths, pawns)
      ensures Snapshot().WellFormed() && state == None
      ensures Consistent(Snapshot())
      ensures this.pawns[0].coord == Coord(rows - 1, cols / 2) && this.pawns[1].coord == Coord(0, cols / 2)
      ensures this.pawns[0].walls == wallsPerPlayer && this.pawns[1].walls == wallsPerPlayer
    {
      this.rows := rows;
      this.cols := cols;
      this.numPlayers := Config.DefaultNumPlayers;
      this.player := 0;
      this.walls := map[];
      this.paths := paths;
      this.pawns := pawns;
      this.state := None;
    }

    /** `putWall`: adds the wall and switches its flags off, unless it is already there. */
    method PutWall(w: Wall)
      modifies this
      ensures Snapshot() == PutWallGame(old(Snapshot()), w)
      ensures state == if w.Key() in old(walls) then old(state) else None
    {
      if w.Key() in walls {
        return;
      }
      walls := walls[w.Key() := w.owner];
      ghost var p0 := paths;
      var i, j := w.coord.row, w.coord.col;
      if w.horiz {
        if InRange(rows, cols, Coord(i, j)) {
          paths := paths[Flag(Coord(i, j), Config.S) := false];
        }
        if InRange(rows, cols, Coord(i, j + 1)) {
          paths := paths[Flag(Coord(i, j + 1), Config.S) := false];
        }
      } else {
        if InRange(rows, cols, Coord(i, j)) {
          paths := paths[Flag(Coord(i, j), Config.W) := false];
        }
        if InRange(rows, cols, Coord(i + 1, j)) {
          paths := paths[Flag(Coord(i + 1, j), Config.W) := false];
        }
      }
      assert paths == SetFlags(p0, WallFlags(rows, cols, w.Key()), false);
      state := None;
    }

    /** `removeWall`: takes the wall away and switches its flags on, if it is there. */
    method RemoveWall(w: Wall)
      modifies this
      ensures Snapshot() == RemoveWallGame(old(Snapshot()), w)
      ensures state == if w.Key() !in old(walls) then old(state) else None
    {
      if w.Key() !in walls {
        return;
      }
      walls := walls - {w.Key()};
      ghost var p0 := paths;
      var i, j := w.coord.row, w.coord.col;
      if w.horiz {
        if InRange(rows, cols, Coord(i, j)) {
          paths := paths[Flag(Coord(i, j), Config.S) := true];
        }
        if InRange(rows, cols, Coord(i, j + 1)) {
          paths := paths[Flag(Coord(i, j + 1), Config.S) := true];
        }
      } else {
        if InRange(rows, cols, Coord(i, j)) {
          paths := paths[Flag(Coord(i, j), Config.W) := true];
        }
        if InRange(rows, cols, Coord(i + 1, j)) {
          paths := paths[Flag(Coord(i + 1, j), Config.W) := true];
        }
      }
      assert paths == SetFlags(p0, WallFlags(rows, cols, w.Key()), true);
      state := None;
    }

    /**
     * `can_put_wall`: answers `CanPutWall` by checking the wall counter,
     * then every placed wall for a collision, then every pawn with the wall
     * put in place; the wall is taken out again, so the placed walls are
     * unchanged and only the new wall's flags end up switched on.
     */
    method CanPutWallCheck(w: Wall, reach: Reach) returns (ok: bool)
      requires Snapshot().WellFormed()
      modifies this
      ensures ok == CanPutWall(old(Snapshot()), w, reach)
      ensures walls == old(walls) && pawns == old(pawns) && player == old(player)
      ensures var tried := old(pawns[player].walls) != 0 && !CollidesAny(old(walls), w);
        && paths == (if tried then SetFlags(old(paths), WallFlags(rows, cols, w.Key()), true) else old(paths))
        && state == (if tried then None else old(state))
    {
      if pawns[player].walls == 0 {
        return false;
      }
      var hit := CollidesPlaced(w);
      if hit {
        return false;
      }
      if w.Key() in walls {
        CollidesSame(w, WallAt(walls, w.Key()));
      }
      ghost var g0 := Snapshot();
      PutWall(w);
      assert walls.Keys == g0.walls.Keys + {w.Key()};
      ok := AllReachGoal(reach);
      RemoveWall(w);
    }

    /** The collision loop of `can_put_wall`: does `w` collide with a placed wall? */
    method CollidesPlaced(w: Wall) returns (hit: bool)
      ensures hit == CollidesAny(walls, w)
    {
      var rest := walls.Keys;
      while rest != {}
        invariant rest <= walls.Keys
        invariant forall s :: s in walls && s !in rest ==> !Collides(w, WallAt(walls, s))
        decreases rest
      {
        var s :| s in rest;
        if Collides(w, Wall(s.coord, s.horiz, walls[s])) {
          assert s in walls && Collides(w, WallAt(walls, s));
          return true;
        }
        rest := rest - {s};
      }
      return false;
    }

    /** The reachability loop of `can_put_wall`: every pawn can still reach its goal. */
    method AllReachGoal(reach: Reach) returns (ok: bool)
      ensures ok <==> forall k :: 0 <= k < |pawns| ==> reach(walls.Keys, pawns[k])
    {
      ok := true;
      var i := 0;
      while i < |pawns|
        invariant 0 <= i <= |pawns|
        invariant forall k :: 0 <= k < i ==> reach(walls.Keys, pawns[k])
      {
        if !reach(walls.Keys, pawns[i]) {
          return false;
        }
        i := i + 1;
      }
    }

    /** `SweptState` of this board. */
    ghost predicate Swept(w0: map<Slot, Option<nat>>, p0: map<Flag, bool>, s0: Option<string>, destroyed: seq<Wall>)
      reads this
    {
      SweptState(rows, cols, w0, p0, s0, destroyed, walls, paths, state)
    }

    /**
     * One cell of the sweep in `execute_power_bomb`: every placed wall that
     * touches `c` and is not yet listed is listed and removed.
     */
    method SweepCell(c: Coord, ghost w0: map<Slot, Option<nat>>, ghost p0: map<Flag, bool>, ghost s0: Option<string>,
                     destroyed: seq<Wall>) returns (after: seq<Wall>)
      requires Swept(w0, p0, s0, destroyed)
      modifies this
      ensures Swept(w0, p0, s0, after)
      ensures KeysOf(after) == KeysOf(destroyed) + HitCell(w0, c)
      ensures pawns == old(pawns) && player == old(player)
    {
      after := destroyed;
      ghost var d0 := KeysOf(destroyed);
      var toRemove := set s | s in walls && WallAffectsCoord(WallAt(walls, s), c) :: WallAt(walls, s);
      ghost var toKeys := set w | w in toRemove :: w.Key();
      forall s | s in HitCell(w0, c) - d0
        ensures s in toKeys
      {
        assert WallAt(walls, s) in toRemove;
      }
      assert toKeys == HitCell(w0, c) - d0;
      var rest := toRemove;
      while rest != {}
        invariant rest <= toRemove
        invariant Swept(w0, p0, s0, after)
        invariant KeysOf(after) == d0 + (set w | w in toRemove - rest :: w.Key())
        invariant pawns == old(pawns) && player == old(player)
        decreases rest
      {
        var w :| w in rest;
        assert w.Key() in w0 && w.Key() !in d0 && w == WallAt(w0, w.Key());
        assert w.Key() !in KeysOf(after);
        after := DestroyOne(w, w0, p0, s0, after);
        SweptKeysStep(toRemove, rest, w);
        rest := rest - {w};
      }
      assert toRemove - rest == toRemove;
      assert KeysOf(after) == d0 + toKeys;
    }

    /** The body of the sweep in `execute_power_bomb` for one wall: listed, being new, and removed. */
    method DestroyOne(w: Wall, ghost w0: map<Slot, Option<nat>>, ghost p0: map<Flag, bool>, ghost s0: Option<string>,
                      destroyed: seq<Wall>) returns (after: seq<Wall>)
      requires Swept(w0, p0, s0, destroyed)
      requires w.Key() in w0 && w.Key() !in KeysOf(destroyed) && w == WallAt(w0, w.Key())
      modifies this
      ensures Swept(w0, p0, s0, after) && KeysOf(after) == KeysOf(destroyed) + {w.Key()}
      ensures pawns == old(pawns) && player == old(player)
    {
      ListHasKeys(destroyed, w);
      SweptAppend(rows, cols, w0, p0, s0, destroyed, walls, paths, state, w);
      KeysOfAppend(destroyed, w);
      if !ListHas(destroyed, w) {
        after := destroyed + [w];
        RemoveWall(w);
      } else {
        // The source tests `wall not in destroyed_walls` before removing; a
        // wall is swept once, so the test always passes.
        assert false;
      }
    }

    /**
     * The scan of `execute_power_bomb`: each cell of the 3x3 block around
     * `center` that is on the board is swept in row-major order.
     */
    method SweepBlast(center: Coord) returns (destroyed: seq<Wall>)
      modifies this
      ensures Swept(old(walls), old(paths), old(state), destroyed)
      ensures KeysOf(destroyed) == Blasted(old(Snapshot()), center)
      ensures pawns == old(pawns) && player == old(player)
    {
      ghost var w0, p0, s0 := walls, paths, state;
      ghost var done: set<Coord> := {};
      destroyed := [];
      for dr := -1 to 2
        invariant Swept(w0, p0, s0, destroyed)
        invariant pawns == old(pawns) && player == old(player)
        invariant forall c :: c in done <==> InBlast(rows, cols, center, c) && SweptBefore(center, dr, -1, c)
        invariant KeysOf(destroyed) == HitDone(w0, done)
      {
        for dc := -1 to 2
          invariant Swept(w0, p0, s0, destroyed)
          invariant pawns == old(pawns) && player == old(player)
          invariant forall c :: c in done <==> InBlast(rows, cols, center, c) && SweptBefore(center, dr, dc, c)
          invariant KeysOf(destroyed) == HitDone(w0, done)
        {
          var c := Coord(center.row + dr, center.col + dc);
          if InRange(rows, cols, c) {
            destroyed := SweepCell(c, w0, p0, s0, destroyed);
            HitDoneAdd(w0, done, c);
            done := done + {c};
          }
        }
      }
      HitDoneBlast(Game(rows, cols, numPlayers, player, w0, p0, pawns), center, done);
    }

    /** Gives each pawn listed in `counts` that many walls back. */
    method ReturnWalls(counts: map<nat, nat>)
      modifies this`pawns
      ensures |pawns| == |old(pawns)|
      ensures forall i :: 0 <= i < |pawns| ==>
        pawns[i] == old(pawns[i]).(walls := old(pawns[i]).walls + (if i in counts then counts[i] else 0))
    {
      var owners := counts.Keys;
      while owners != {}
        invariant owners <= counts.Keys
        invariant |pawns| == |old(pawns)|
        invariant forall i :: 0 <= i < |pawns| ==>
          pawns[i] == old(pawns[i]).(walls := old(pawns[i]).walls + (if i in counts && i !in owners then counts[i] else 0))
        decreases owners
      {
        var o :| o in owners;
        if o < |pawns| {
          pawns := pawns[o := pawns[o].(walls := pawns[o].walls + counts[o])];
        }
        owners := owners - {o};
      }
    }

    /**
     * `execute_power_bomb`: destroys the walls touching the 3x3 block
     * around `center` and returns them to their owners.
     */
    method ExecutePowerBomb(center: Coord)
      modifies this
      ensures Snapshot() == BombGame(old(Snapshot()), center)
      ensures state == if Blasted(old(Snapshot()), center) == {} then old(state) else None
    {
      ghost var g0 := Snapshot();
      var destroyed := SweepBlast(center);
      var counts := CountOwners(destroyed, |pawns|);
      ReturnWalls(counts);
      forall i | 0 <= i < |pawns|
        ensures pawns[i] == Refunded(g0.pawns, g0.walls, Blasted(g0, center))[i]
      {
        CountOwnedTally(destroyed, g0.walls, i);
      }
      assert destroyed != [] ==> destroyed[0].Key() in KeysOf(destroyed);
    }

    /**
     * The game-state part of `do_action`: a wall is put with the current
     * player as owner and costs one wall; a power bomb goes off and costs
     * one bomb; a move records the cell left in the move history (last
     * four kept) and moves the pawn.
     */
    method DoAction(a: Action)
      requires Snapshot().WellFormed()
      modifies this
      ensures Snapshot() == BoardDoAction(old(Snapshot()), a)
      ensures a.MovePawn? ==> state == None
      ensures a.PlaceWall? ==> state == if Slot(a.coord, a.horiz) in old(walls) then old(state) else None
      ensures a.PowerBomb? ==> state == if Blasted(old(Snapshot()), a.center) == {} then old(state) else None
    {
      match a
      case PlaceWall(c, h) =>
        PutWall(Wall(c, h, Some(pawns[player].id)));
        pawns := pawns[player := pawns[player].(walls := pawns[player].walls - 1)];
      case PowerBomb(center) =>
        ExecutePowerBomb(center);
        pawns := pawns[player := pawns[player].(bombs := pawns[player].bombs - 1)];
      case MovePawn(_, dest) =>
        var cur := pawns[player];
        var history := cur.history + [cur.coord];
        if |history| > 4 {
          history := history[1..];
        }
        pawns := pawns[player := cur.(lastCoord := Some(cur.coord), history := history, coord := dest)];
        state := None;
    }

    /** `next_player`: the turn passes to the following player, cyclically. */
    method NextPlayerTurn()
      requires Snapshot().WellFormed()
      modifies this`player
      ensures player == NextPlayer(old(player), numPlayers)
      ensures Snapshot().WellFormed()
    {
      player := (player + 1) % numPlayers;
    }
  }
}
