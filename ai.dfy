/**
 * The `AI` class of ai/ai.py: it applies and reverts actions on the board
 * it plays on while searching, cleans its search memo, and builds the
 * ordered list of actions the search tries.
 */
module Ai {
  import opened Wrappers
  import opened Geometry
  import opened Walls
  import opened Pawns
  import opened Actions
  import opened Boards
  import opened AiRules
  import opened AiUndo
  import opened AiPositions
  import opened AiMemo

  /** A memoised search result of `think`: best action, score and the alpha/beta bounds. */
  datatype MemoEntry = MemoEntry(best: Option<Action>, score: real, alpha: real, beta: real)

  /** The coordinates of the pawns, in order. */
  function Coords(pawns: seq<Pawn>): (r: seq<Coord>)
    ensures |r| == |pawns| && forall i :: 0 <= i < |r| ==> r[i] == pawns[i].coord
  {
    seq(|pawns|, i requires 0 <= i < |pawns| => pawns[i].coord)
  }

  /** The slot `(c, h)` when `can_put_wall` gets past its counter and collision checks for it. */
  function TriedAt(g: Game, c: Coord, h: bool): set<Slot>
    requires g.WellFormed()
  {
    if g.Current().walls != 0 && !CollidesAny(g.walls, Wall(c, h, None)) then {Slot(c, h)} else {}
  }

  /** The slots at positions `done` that `can_put_wall` put in place and took out again. */
  ghost function TriedIn(g: Game, done: set<Coord>): set<Slot>
    requires g.WellFormed()
  {
    set c, h: bool | c in done && Slot(c, h) in TriedAt(g, c, h) :: Slot(c, h)
  }

  lemma TriedInAdd(g: Game, done: set<Coord>, c: Coord)
    requires g.WellFormed()
    ensures TriedIn(g, done + {c}) == TriedIn(g, done) + TriedAt(g, c, false) + TriedAt(g, c, true)
  {
    forall s | s in TriedIn(g, done + {c})
      ensures s in TriedIn(g, done) + TriedAt(g, c, false) + TriedAt(g, c, true)
    {
      if s.coord != c {
        assert s in TriedAt(g, s.coord, s.horiz);
      }
    }
  }

  lemma FlagsStep(rows: int, cols: int, p0: map<Flag, bool>, t: set<Slot>, x: set<Slot>)
    ensures SetFlags(SetFlags(p0, UnionFlags(rows, cols, t), true), UnionFlags(rows, cols, x), true)
         == SetFlags(p0, UnionFlags(rows, cols, t + x), true)
  {
    SetFlagsTwice(p0, UnionFlags(rows, cols, t), UnionFlags(rows, cols, x), true);
    assert UnionFlags(rows, cols, t + x) == UnionFlags(rows, cols, t) + UnionFlags(rows, cols, x);
  }

  /** A wall action that `can_put_wall` accepts on `g`. */
  ghost predicate Accepted(g: Game, reach: Reach, a: Action)
    requires g.WellFormed()
  {
    a.PlaceWall? && CanPutWall(g, Wall(a.coord, a.horiz, None), reach)
  }

  /** Whether a wall is accepted does not depend on the path flags. */
  lemma AcceptedIgnoresPaths(g: Game, paths: map<Flag, bool>, reach: Reach)
    requires g.WellFormed()
    ensures forall a :: Accepted(g.(paths := paths), reach, a) <==> Accepted(g, reach, a)
  {
  }

  lemma TriedAtIgnoresPaths(g: Game, paths: map<Flag, bool>, c: Coord)
    requires g.WellFormed()
    ensures TriedAt(g.(paths := paths), c, false) + TriedAt(g.(paths := paths), c, true)
         == TriedAt(g, c, false) + TriedAt(g, c, true)
  {
  }

  /** The flags after trying the walls at one more position. */
  lemma TriedStep(g: Game, done: set<Coord>, c: Coord, before: map<Flag, bool>, after: map<Flag, bool>)
    requires g.WellFormed()
    requires before == SetFlags(g.paths, UnionFlags(g.rows, g.cols, TriedIn(g, done)), true)
    requires after == SetFlags(before, UnionFlags(g.rows, g.cols, TriedAt(g, c, false) + TriedAt(g, c, true)), true)
    ensures after == SetFlags(g.paths, UnionFlags(g.rows, g.cols, TriedIn(g, done + {c})), true)
  {
    var t, x := TriedIn(g, done), TriedAt(g, c, false) + TriedAt(g, c, true);
    FlagsStep(g.rows, g.cols, g.paths, t, x);
    TriedInAdd(g, done, c);
    assert UnionFlags(g.rows, g.cols, TriedIn(g, done + {c})) == UnionFlags(g.rows, g.cols, t + x);
  }

  /**
   * The flags and the state memo once the walls at the positions `done`
   * were tried: their flags switched on, and the memo dropped if any was.
   */
  ghost predicate ProbedSoFar(g: Game, done: set<Coord>, s0: Option<string>, paths: map<Flag, bool>, state: Option<string>)
    requires g.WellFormed()
  {
    && paths == SetFlags(g.paths, UnionFlags(g.rows, g.cols, TriedIn(g, done)), true)
    && state == (if TriedIn(g, done) == {} then s0 else None)
  }

  /** The state memo after trying the walls at one more position. */
  lemma TriedStateStep(g: Game, done: set<Coord>, c: Coord, s0: Option<string>, before: Option<string>, after: Option<string>)
    requires g.WellFormed()
    requires before == if TriedIn(g, done) == {} then s0 else None
    requires after == if TriedAt(g, c, false) + TriedAt(g, c, true) == {} then before else None
    ensures after == if TriedIn(g, done + {c}) == {} then s0 else None
  {
    TriedInAdd(g, done, c);
  }

  lemma AcceptedAdd(g: Game, reach: Reach, actions: seq<Action>, found: seq<Action>, done: set<Coord>, c: Coord)
    requires g.WellFormed()
    requires forall a :: a in actions <==> Accepted(g, reach, a) && a.coord in done
    requires forall a :: a in found <==> Accepted(g, reach, a) && a.coord == c
    ensures forall a :: a in actions + found <==> Accepted(g, reach, a) && a.coord in done + {c}
  {
  }

  /** The two tries at `c` together list exactly the walls accepted at `c`, each once. */
  lemma AcceptedAt(g: Game, reach: Reach, c: Coord, vertical: seq<Action>, horizontal: seq<Action>)
    requires g.WellFormed()
    requires vertical == (if Accepted(g, reach, PlaceWall(c, false)) then [PlaceWall(c, false)] else [])
    requires horizontal == (if Accepted(g, reach, PlaceWall(c, true)) then [PlaceWall(c, true)] else [])
    ensures forall a :: a in vertical + horizontal <==> Accepted(g, reach, a) && a.coord == c
    ensures NoRepeats(vertical + horizontal)
  {
    forall a | Accepted(g, reach, a) && a.coord == c
      ensures a in vertical + horizontal
    {
      assert a == PlaceWall(c, a.horiz);
    }
  }

  /** Every entry of the wall memo is a list of wall actions. */
  predicate OnlyWalls(m: map<string, seq<Action>>)
  {
    forall k :: k in m ==> forall a :: a in m[k] ==> a.PlaceWall?
  }

  /** No action occurs twice in `ws`. */
  predicate NoRepeats(ws: seq<Action>)
  {
    forall i, j :: 0 <= i < j < |ws| ==> ws[i] != ws[j]
  }

  /** Joining two lists without repeats that share no action repeats nothing. */
  lemma NoRepeatsJoin(xs: seq<Action>, ys: seq<Action>)
    requires NoRepeats(xs) && NoRepeats(ys) && forall a :: a in xs ==> a !in ys
    ensures NoRepeats(xs + ys)
  {
    forall i, j | 0 <= i < j < |xs + ys|
      ensures (xs + ys)[i] != (xs + ys)[j]
    {
      if i < |xs| && |xs| <= j {
        assert (xs + ys)[i] in xs && (xs + ys)[j] in ys;
      }
    }
  }

  /** The strategic positions `_generate_strategic_walls` looks at on `g`. */
  ghost function Spots(g: Game, sp: seq<Option<seq<Coord>>>): set<Coord>
    requires g.WellFormed() && |sp| == |g.pawns|
  {
    StrategicSpots(g.rows, g.cols, Coords(g.pawns), sp, g.player)
  }

  /**
   * What `_generate_strategic_walls` returns on `g`: a wall action for
   * each orientation at each strategic position that `can_put_wall`
   * accepts, each once, and no other action.
   */
  ghost predicate StrategicWalls(g: Game, reach: Reach, sp: seq<Option<seq<Coord>>>, ws: seq<Action>)
    requires g.WellFormed() && |sp| == |g.pawns|
  {
    && NoRepeats(ws)
    && forall a :: a in ws <==> a.PlaceWall? && a.coord in Spots(g, sp) && CanPutWall(g, Wall(a.coord, a.horiz, None), reach)
  }

  /**
   * The wall memo before (`m0`) and after (`m1`) `available_actions` on
   * `g` for the wall layout key `k`, and the wall actions `ws` it offers:
   * none when the current player has no wall left; otherwise those
   * remembered for `k`, generated and remembered when `k` is new.
   */
  ghost predicate WallMemoStep(g: Game, reach: Reach, sp: seq<Option<seq<Coord>>>, k: string,
                               m0: map<string, seq<Action>>, m1: map<string, seq<Action>>, ws: seq<Action>)
    requires g.WellFormed() && |sp| == |g.pawns|
  {
    if g.Current().walls == 0 then ws == [] && m1 == m0
    else if k in m0 then ws == m0[k] && m1 == m0
    else m1 == m0[k := ws] && StrategicWalls(g, reach, sp, ws)
  }

  /**
   * The flags and the state memo after the wall part of
   * `available_actions`: untouched unless the walls were generated
   * (`probed`), and then as the probes of `can_put_wall` leave them.
   */
  ghost predicate ProbeEffect(g: Game, sp: seq<Option<seq<Coord>>>, probed: bool, s0: Option<string>,
                              paths: map<Flag, bool>, state: Option<string>)
    requires g.WellFormed() && |sp| == |g.pawns|
  {
    if probed then ProbedSoFar(g, Spots(g, sp), s0, paths, state) else paths == g.paths && state == s0
  }

  /**
   * On a consistent board every wall `can_put_wall` tries is free, so its
   * flags were on and switching them on again changes nothing.
   */
  lemma ProbesKeepFlags(g: Game, done: set<Coord>)
    requires g.WellFormed() && Consistent(g)
    ensures SetFlags(g.paths, UnionFlags(g.rows, g.cols, TriedIn(g, done)), true) == g.paths
  {
    var fs := UnionFlags(g.rows, g.cols, TriedIn(g, done));
    forall f | f in fs
      ensures f in g.paths && g.paths[f]
    {
      var s :| s in TriedIn(g, done) && f in WallFlags(g.rows, g.cols, s);
      assert s in TriedAt(g, s.coord, s.horiz);
      FreeWallOpen(g, Wall(s.coord, s.horiz, None));
    }
    SetFlagsIdentity(g.paths, fs, true);
  }

  /**
   * The actions of `available_actions` before the walls: the pawn's moves
   * as `PawnMoves` orders them, then a power bomb at its cell when it has one.
   */
  function BasicActions(cur: Pawn, validMoves: seq<Coord>): (r: seq<Action>)
    ensures |r| == |validMoves| + (if cur.bombs > 0 then 1 else 0)
    ensures forall i :: 0 <= i < |validMoves| ==> r[i].MovePawn? && r[i].orig == cur.coord
    ensures cur.bombs > 0 ==> r[|validMoves|] == PowerBomb(cur.coord)
  {
    PawnMoves(cur.history, cur.coord, validMoves) + (if cur.bombs > 0 then [PowerBomb(cur.coord)] else [])
  }

  /** The walls of a copy that touch cell `c` are those the copy holds under the keys `HitCell` names. */
  lemma HitCellWalls(w0: map<Slot, Option<nat>>, c: Coord, toRemove: set<Wall>)
    requires toRemove == set s | s in w0 && WallAffectsCoord(WallAt(w0, s), c) :: WallAt(w0, s)
    ensures forall w :: w in toRemove ==> w.Key() in w0 && w == WallAt(w0, w.Key())
    ensures (set w | w in toRemove :: w.Key()) == HitCell(w0, c)
  {
    forall s | s in HitCell(w0, c)
      ensures s in set w | w in toRemove :: w.Key()
    {
      assert WallAt(w0, s) in toRemove;
    }
  }

  class AI {
    const board: Board
    /** The search depth. */
    const level: int
    /** `CACHE_ENABLED`: the memo is kept on disk and never cleaned. */
    const cacheEnabled: bool
    /** `_memoize_think`: search results by level and board state. */
    var memo: map<string, MemoEntry>
    /** `core.MEMOIZED_WALLS`: the wall actions generated for a wall layout. */
    var wallMemo: map<string, seq<Action>>

    /**
     * An AI playing on `board`; with the cache enabled the memo starts
     * with what is `stored` on disk, otherwise it starts empty.
     */
    constructor (board: Board, level: int, cacheEnabled: bool, stored: map<string, MemoEntry>,
                 wallMemo: map<string, seq<Action>>)
      requires OnlyWalls(wallMemo)
      ensures OnlyWalls(this.wallMemo)
      ensures this.board == board && this.level == level && this.cacheEnabled == cacheEnabled
      ensures memo == (if cacheEnabled then stored else map[]) && this.wallMemo == wallMemo
    {
      this.board := board;
      this.level := level;
      this.cacheEnabled := cacheEnabled;
      this.memo := if cacheEnabled then stored else map[];
      this.wallMemo := wallMemo;
    }

    /**
     * One cell of the sweep in `do_action`: every wall of the copy `w0`
     * that touches `c` and is not listed yet is listed and, being still on
     * the board, removed and counted for its owner.
     */
    method BombSweepCell(c: Coord, w0: map<Slot, Option<nat>>, ghost p0: map<Flag, bool>, ghost s0: Option<string>,
                         destroyed: seq<Wall>, counts: map<nat, nat>)
      returns (after: seq<Wall>, counted: map<nat, nat>)
      requires board.Swept(w0, p0, s0, destroyed) && OwnerCounts(destroyed, |board.pawns|, counts)
      modifies board
      ensures board.Swept(w0, p0, s0, after) && OwnerCounts(after, |board.pawns|, counted)
      ensures KeysOf(after) == KeysOf(destroyed) + HitCell(w0, c)
      ensures board.pawns == old(board.pawns) && board.player == old(board.player)
    {
      after, counted := destroyed, counts;
      var toRemove := set s | s in w0 && WallAffectsCoord(WallAt(w0, s), c) :: WallAt(w0, s);
      ghost var d0 := KeysOf(destroyed);
      HitCellWalls(w0, c, toRemove);
      var rest := toRemove;
      while rest != {}
        invariant rest <= toRemove
        invariant board.Swept(w0, p0, s0, after) && OwnerCounts(after, |board.pawns|, counted)
        invariant KeysOf(after) == d0 + (set w | w in toRemove - rest :: w.Key())
        invariant board.pawns == old(board.pawns) && board.player == old(board.player)
        decreases rest
      {
        var w :| w in rest;
        after, counted := DestroyWall(w, w0, p0, s0, after, counted);
        SweptKeysStep(toRemove, rest, w);
        rest := rest - {w};
      }
      assert toRemove - rest == toRemove;
    }

    /**
     * The body of the sweep in `do_action` for one wall `w` of the copy
     * `w0`: unless it is listed already, it is listed and, being still on
     * the board, removed and counted for its owner.
     */
    method DestroyWall(w: Wall, w0: map<Slot, Option<nat>>, ghost p0: map<Flag, bool>, ghost s0: Option<string>,
                       destroyed: seq<Wall>, counts: map<nat, nat>)
      returns (after: seq<Wall>, counted: map<nat, nat>)
      requires w.Key() in w0 && w == WallAt(w0, w.Key())
      requires board.Swept(w0, p0, s0, destroyed) && OwnerCounts(destroyed, |board.pawns|, counts)
      modifies board
      ensures board.Swept(w0, p0, s0, after) && OwnerCounts(after, |board.pawns|, counted)
      ensures KeysOf(after) == KeysOf(destroyed) + {w.Key()}
      ensures board.pawns == old(board.pawns) && board.player == old(board.player)
    {
      after, counted := destroyed, counts;
      ListHasKeys(destroyed, w);
      if !ListHas(destroyed, w) {
        SweptAppend(board.rows, board.cols, w0, p0, s0, destroyed, board.walls, board.paths, board.state, w);
        KeysOfAppend(destroyed, w);
        OwnerCountsAppend(destroyed, |board.pawns|, counts, w);
        after := destroyed + [w];
        if w.Key() in board.walls {
          board.RemoveWall(w);
          counted := CountOne(counts, w, |board.pawns|);
        }
      }
    }

    /**
     * The scan of `do_action` for a power bomb: the cells of the 3x3 block
     * around `center` that are on the board, in row-major order, over a
     * copy of the walls taken before the scan.
     */
    method BombSweep(center: Coord) returns (destroyed: seq<Wall>, counts: map<nat, nat>)
      modifies board
      ensures board.Swept(old(board.walls), old(board.paths), old(board.state), destroyed)
      ensures KeysOf(destroyed) == Blasted(old(board.Snapshot()), center)
      ensures OwnerCounts(destroyed, |board.pawns|, counts)
      ensures board.pawns == old(board.pawns) && board.player == old(board.player)
    {
      var w0 := board.walls;
      ghost var p0, s0 := board.paths, board.state;
      ghost var done: set<Coord> := {};
      destroyed, counts := [], map[];
      for dr := -1 to 2
        invariant board.Swept(w0, p0, s0, destroyed) && OwnerCounts(destroyed, |board.pawns|, counts)
        invariant board.pawns == old(board.pawns) && board.player == old(board.player)
        invariant forall c :: c in done <==> InBlast(board.rows, board.cols, center, c) && SweptBefore(center, dr, -1, c)
        invariant KeysOf(destroyed) == HitDone(w0, done)
      {
        destroyed, counts, done := BombSweepRow(center, dr, w0, p0, s0, done, destroyed, counts);
      }
      HitDoneBlast(Game(board.rows, board.cols, board.numPlayers, board.player, w0, p0, board.pawns), center, done);
    }

    /** One row `center.row + dr` of the sweep in `BombSweep`, cell by cell from the left. */
    method BombSweepRow(center: Coord, dr: int, w0: map<Slot, Option<nat>>, ghost p0: map<Flag, bool>,
                        ghost s0: Option<string>, ghost done0: set<Coord>, destroyed0: seq<Wall>, counts0: map<nat, nat>)
      returns (destroyed: seq<Wall>, counts: map<nat, nat>, ghost done: set<Coord>)
      requires -1 <= dr <= 1
      requires board.Swept(w0, p0, s0, destroyed0) && OwnerCounts(destroyed0, |board.pawns|, counts0)
      requires forall c :: c in done0 <==> InBlast(board.rows, board.cols, center, c) && SweptBefore(center, dr, -1, c)
      requires KeysOf(destroyed0) == HitDone(w0, done0)
      modifies board
      ensures board.Swept(w0, p0, s0, destroyed) && OwnerCounts(destroyed, |board.pawns|, counts)
      ensures board.pawns == old(board.pawns) && board.player == old(board.player)
      ensures forall c :: c in done <==> InBlast(board.rows, board.cols, center, c) && SweptBefore(center, dr + 1, -1, c)
      ensures KeysOf(destroyed) == HitDone(w0, done)
    {
      destroyed, counts, done := destroyed0, counts0, done0;
      for dc := -1 to 2
        invariant board.Swept(w0, p0, s0, destroyed) && OwnerCounts(destroyed, |board.pawns|, counts)
        invariant board.pawns == old(board.pawns) && board.player == old(board.player)
        invariant forall c :: c in done <==> InBlast(board.rows, board.cols, center, c) && SweptBefore(center, dr, dc, c)
        invariant KeysOf(destroyed) == HitDone(w0, done)
      {
        var c := Coord(center.row + dr, center.col + dc);
        if InRange(board.rows, board.cols, c) {
          destroyed, counts := BombSweepCell(c, w0, p0, s0, destroyed, counts);
          HitDoneAdd(w0, done, c);
          done := done + {c};
        }
      }
    }

    /**
     * The power bomb part of `do_action` once a bomb is available: the
     * sweep, then the walls given back to their owners; the board ends as
     * `BombGame` says, and the destroyed walls and the per-owner counts are
     * what `RecordOk` asks of a spent bomb.
     */
    method Blast(center: Coord) returns (destroyed: seq<Wall>, counts: map<nat, nat>)
      modifies board
      ensures var g0 := old(board.Snapshot());
        && board.Snapshot() == BombGame(g0, center)
        && Listed(g0.walls, destroyed) && KeysOf(destroyed) == Blasted(g0, center)
        && RefundsOk(g0.pawns, g0.walls, Blasted(g0, center), counts)
      ensures board.state == if Blasted(old(board.Snapshot()), center) == {} then old(board.state) else None
    {
      ghost var g0 := board.Snapshot();
      destroyed, counts := BombSweep(center);
      board.ReturnWalls(counts);
      forall i | 0 <= i < |board.pawns|
        ensures board.pawns[i] == Refunded(g0.pawns, g0.walls, Blasted(g0, center))[i]
      {
        CountOwnedTally(destroyed, g0.walls, i);
      }
      forall o: nat
        ensures CountOwned(destroyed, o) == Tally(g0.walls, Blasted(g0, center), o)
      {
        CountOwnedTally(destroyed, g0.walls, o);
      }
      assert destroyed != [] ==> destroyed[0].Key() in KeysOf(destroyed);
    }

    /**
     * `do_action`: changes the board as `ApplyGame` says and returns what
     * the undo needs, as `RecordOk` describes it.
     */
    method DoAction(a: Action) returns (rec: Record)
      requires board.Snapshot().WellFormed()
      modifies board
      ensures board.Snapshot() == ApplyGame(old(board.Snapshot()), a)
      ensures RecordOk(old(board.Snapshot()), a, rec)
      ensures board.state == match a
        case PlaceWall(c, h) => if Slot(c, h) in old(board.walls) then old(board.state) else None
        case PowerBomb(center) =>
          if old(board.Snapshot()).Current().bombs <= 0 || Blasted(old(board.Snapshot()), center) == {} then old(board.state)
          else None
        case MovePawn(_, _) => old(board.state)
    {
      ghost var g0 := board.Snapshot();
      var me := board.player;
      match a
      case PlaceWall(c, h) =>
        var w := Wall(c, h, Some(board.pawns[me].id));
        board.PutWall(w);
        board.pawns := board.pawns[me := board.pawns[me].(walls := board.pawns[me].walls - 1)];
        rec := Placed(w);
      case PowerBomb(center) =>
        if board.pawns[me].bombs <= 0 {
          rec := Bombed([], map[], false);
          return;
        }
        var destroyed, counts := Blast(center);
        board.pawns := board.pawns[me := board.pawns[me].(bombs := board.pawns[me].bombs - 1)];
        rec := Bombed(destroyed, counts, true);
      case MovePawn(_, dest) =>
        board.pawns := board.pawns[me := board.pawns[me].(coord := dest)];
        rec := Moved;
    }

    /** The first loop of `undo_action` for a power bomb: each destroyed wall not on the board is put back. */
    method RestoreDestroyed(ds: seq<Wall>)
      modifies board
      ensures board.Snapshot() == RestoreWalls(old(board.Snapshot()), ds)
      ensures board.state == if KeysOf(ds) <= old(board.walls).Keys then old(board.state) else None
    {
      ghost var g0 := board.Snapshot();
      ghost var s0 := board.state;
      for i := 0 to |ds|
        invariant board.Snapshot() == RestoreWalls(g0, ds[..i])
        invariant board.walls.Keys == g0.walls.Keys + KeysOf(ds[..i])
        invariant board.state == if KeysOf(ds[..i]) <= g0.walls.Keys then s0 else None
      {
        RestoreOne(ds, i, g0, s0);
      }
      assert ds[..|ds|] == ds;
    }

    /** One round of `RestoreDestroyed`: the wall `ds[i]` is put back unless it is on the board. */
    method RestoreOne(ds: seq<Wall>, i: nat, ghost g0: Game, ghost s0: Option<string>)
      requires i < |ds|
      requires board.Snapshot() == RestoreWalls(g0, ds[..i])
      requires board.walls.Keys == g0.walls.Keys + KeysOf(ds[..i])
      requires board.state == if KeysOf(ds[..i]) <= g0.walls.Keys then s0 else None
      modifies board
      ensures board.Snapshot() == RestoreWalls(g0, ds[..i + 1])
      ensures board.walls.Keys == g0.walls.Keys + KeysOf(ds[..i + 1])
      ensures board.state == if KeysOf(ds[..i + 1]) <= g0.walls.Keys then s0 else None
    {
      assert ds[..i + 1] == ds[..i] + [ds[i]];
      KeysOfAppend(ds[..i], ds[i]);
      if ds[i].Key() !in board.walls {
        board.PutWall(ds[i]);
      }
      assert ds[..i + 1][..i] == ds[..i];
    }

    /** The second loop of `undo_action` for a power bomb: each owner with a pawn gives back the walls it was returned. */
    method TakeBackReturns(refunds: map<nat, nat>)
      modifies board`pawns
      ensures board.pawns == Deducted(old(board.pawns), refunds)
    {
      var owners := refunds.Keys;
      while owners != {}
        invariant owners <= refunds.Keys
        invariant |board.pawns| == |old(board.pawns)|
        invariant forall i :: 0 <= i < |board.pawns| ==>
          board.pawns[i] == old(board.pawns[i]).(walls := old(board.pawns[i]).walls
            - (if i in refunds && i !in owners then refunds[i] else 0))
        decreases owners
      {
        var o :| o in owners;
        if o < |board.pawns| {
          board.pawns := board.pawns[o := board.pawns[o].(walls := board.pawns[o].walls - refunds[o])];
        }
        owners := owners - {o};
      }
    }

    /**
     * `undo_action`, with the bomb given back only when `do_action` spent
     * one: changes the board as `UndoGame` says.
     */
    method UndoAction(a: Action, rec: Record)
      requires board.Snapshot().WellFormed() && Fits(a, rec)
      modifies board
      ensures board.Snapshot() == UndoGame(old(board.Snapshot()), a, rec)
      ensures board.state == match a
        case PlaceWall(_, _) => if rec.wall.Key() in old(board.walls) then None else old(board.state)
        case PowerBomb(_) => if KeysOf(rec.destroyed) <= old(board.walls).Keys then old(board.state) else None
        case MovePawn(_, _) => old(board.state)
    {
      ghost var g0 := board.Snapshot();
      var me := board.player;
      match a
      case PlaceWall(_, _) =>
        board.RemoveWall(rec.wall);
        board.pawns := board.pawns[me := board.pawns[me].(walls := board.pawns[me].walls + 1)];
      case PowerBomb(_) =>
        RestoreDestroyed(rec.destroyed);
        TakeBackReturns(rec.refunds);
        if rec.spent {
          board.pawns := board.pawns[me := board.pawns[me].(bombs := board.pawns[me].bombs + 1)];
        }
      case MovePawn(orig, _) =>
        board.pawns := board.pawns[me := board.pawns[me].(coord := orig)];
    }

    /** `previous_player`: the turn goes back to the player before, cyclically. */
    method PreviousPlayerTurn()
      requires board.Snapshot().WellFormed()
      modifies board`player
      ensures board.player == PreviousPlayer(old(board.player), board.numPlayers)
      ensures board.Snapshot().WellFormed()
    {
      board.player := (board.player + board.numPlayers - 1) % board.numPlayers;
    }

    /**
     * `clean_memo` for the board state `boardState`: with the cache
     * enabled nothing is removed; otherwise only the entries whose keys
     * match the pattern built from the state are kept.
     */
    method CleanMemo(boardState: string)
      modifies this`memo
      ensures memo == if cacheEnabled then old(memo)
        else KeptEntries(old(memo), MemoPattern(boardState, 1 + |board.pawns| * 4))
    {
      if cacheEnabled {
        return;
      }
      var L := 1 + |board.pawns| * 4;
      var pattern := MemoPattern(boardState, L);
      var keys := memo.Keys;
      while keys != {}
        invariant keys <= old(memo).Keys
        invariant memo == map q | q in old(memo) && (q in keys || PatternMatches(pattern, q)) :: old(memo)[q]
        decreases keys
      {
        var q :| q in keys;
        if !PatternMatches(pattern, q) {
          memo := memo - {q};
        }
        keys := keys - {q};
      }
    }

    /**
     * The checks of `_generate_strategic_walls` for one wall: the slot is
     * free, the quick collision test passes, and `can_put_wall` accepts it.
     */
    method TryWall(c: Coord, h: bool, reach: Reach) returns (ok: bool)
      requires board.Snapshot().WellFormed()
      modifies board
      ensures ok == CanPutWall(old(board.Snapshot()), Wall(c, h, None), reach)
      ensures board.walls == old(board.walls) && board.pawns == old(board.pawns) && board.player == old(board.player)
      ensures board.paths == SetFlags(old(board.paths), UnionFlags(board.rows, board.cols, TriedAt(old(board.Snapshot()), c, h)), true)
      ensures board.state == if TriedAt(old(board.Snapshot()), c, h) == {} then old(board.state) else None
    {
      var w := Wall(c, h, None);
      if Slot(c, h) in board.walls {
        CollidesSame(w, WallAt(board.walls, Slot(c, h)));
        assert SetFlags(board.paths, {}, true) == board.paths;
        return false;
      }
      var hit := HasWallCollision(board.walls, c, h);
      if hit {
        assert SetFlags(board.paths, {}, true) == board.paths;
        return false;
      }
      ok := board.CanPutWallCheck(w, reach);
      assert UnionFlags(board.rows, board.cols, {w.Key()}) == WallFlags(board.rows, board.cols, w.Key());
      assert SetFlags(old(board.paths), {}, true) == old(board.paths);
    }

    /**
     * One try of the inner loop of `_generate_strategic_walls`: the wall
     * `(c, h)` as a one-element list when `TryWall` accepts it, on the board
     * `g` whose flags the earlier tries may have switched on.
     */
    method TryAt(c: Coord, h: bool, reach: Reach, ghost g: Game) returns (part: seq<Action>)
      requires g.WellFormed() && board.Snapshot() == g.(paths := board.paths)
      modifies board
      ensures part == (if Accepted(g, reach, PlaceWall(c, h)) then [PlaceWall(c, h)] else [])
      ensures board.Snapshot() == g.(paths := board.paths)
      ensures board.paths == SetFlags(old(board.paths), UnionFlags(g.rows, g.cols, TriedAt(g, c, h)), true)
      ensures board.state == if TriedAt(g, c, h) == {} then old(board.state) else None
    {
      AcceptedIgnoresPaths(g, board.paths, reach);
      var ok := TryWall(c, h, reach);
      part := if ok then [PlaceWall(c, h)] else [];
    }

    /**
     * The inner loop of `_generate_strategic_walls` for one position: the
     * vertical and then the horizontal wall there, each kept when `TryWall`
     * accepts it.
     */
    method WallsAt(c: Coord, reach: Reach, ghost g: Game) returns (found: seq<Action>)
      requires g.WellFormed() && board.Snapshot() == g.(paths := board.paths)
      modifies board
      ensures forall a :: a in found <==> Accepted(g, reach, a) && a.coord == c
      ensures NoRepeats(found)
      ensures board.Snapshot() == g.(paths := board.paths)
      ensures board.paths == SetFlags(old(board.paths), UnionFlags(g.rows, g.cols, TriedAt(g, c, false) + TriedAt(g, c, true)), true)
      ensures board.state == if TriedAt(g, c, false) + TriedAt(g, c, true) == {} then old(board.state) else None
    {
      ghost var p0 := board.paths;
      var vertical := TryAt(c, false, reach, g);
      var horizontal := TryAt(c, true, reach, g);
      FlagsStep(g.rows, g.cols, p0, TriedAt(g, c, false), TriedAt(g, c, true));
      AcceptedAt(g, reach, c, vertical, horizontal);
      found := vertical + horizontal;
    }

    /**
     * One round of the loop of `_generate_strategic_walls`: the walls
     * accepted at `c` join those accepted at the positions `done`.
     */
    method WallsStep(c: Coord, reach: Reach, ghost g0: Game, ghost done: set<Coord>, ghost s0: Option<string>,
                     actions: seq<Action>) returns (more: seq<Action>)
      requires g0.WellFormed() && board.Snapshot() == g0.(paths := board.paths)
      requires ProbedSoFar(g0, done, s0, board.paths, board.state)
      requires forall a :: a in actions <==> Accepted(g0, reach, a) && a.coord in done
      requires NoRepeats(actions) && c !in done
      modifies board
      ensures board.Snapshot() == g0.(paths := board.paths)
      ensures ProbedSoFar(g0, done + {c}, s0, board.paths, board.state)
      ensures forall a :: a in more <==> Accepted(g0, reach, a) && a.coord in done + {c}
      ensures NoRepeats(more)
    {
      ghost var before, stateBefore := board.paths, board.state;
      var found := WallsAt(c, reach, g0);
      AcceptedAdd(g0, reach, actions, found, done, c);
      NoRepeatsJoin(actions, found);
      more := actions + found;
      TriedStep(g0, done, c, before, board.paths);
      TriedStateStep(g0, done, c, s0, stateBefore, board.state);
    }

    /**
     * The loop of `_generate_strategic_walls` over `positions`: the wall
     * actions `can_put_wall` accepts there; only the flags of the walls
     * tried are left switched on, and the state memo is dropped once a
     * wall was tried.
     */
    method WallsAtAll(positions: set<Coord>, reach: Reach) returns (actions: seq<Action>)
      requires board.Snapshot().WellFormed()
      modifies board
      ensures forall a :: a in actions <==> Accepted(old(board.Snapshot()), reach, a) && a.coord in positions
      ensures NoRepeats(actions)
      ensures ProbedSoFar(old(board.Snapshot()), positions, old(board.state), board.paths, board.state)
      ensures board.walls == old(board.walls) && board.pawns == old(board.pawns) && board.player == old(board.player)
    {
      ghost var g0 := board.Snapshot();
      ghost var s0 := board.state;
      actions := [];
      ghost var done: set<Coord> := {};
      var rest := positions;
      assert SetFlags(g0.paths, UnionFlags(g0.rows, g0.cols, {}), true) == g0.paths;
      while rest != {}
        invariant rest <= positions && done == positions - rest
        invariant board.walls == g0.walls && board.pawns == g0.pawns && board.player == g0.player
        invariant ProbedSoFar(g0, done, s0, board.paths, board.state)
        invariant forall a :: a in actions <==> Accepted(g0, reach, a) && a.coord in done
        invariant NoRepeats(actions)
        decreases rest
      {
        var c :| c in rest;
        actions := WallsStep(c, reach, g0, done, s0, actions);
        done := done + {c};
        rest := rest - {c};
      }
      assert done == positions;
    }

    /**
     * `_generate_strategic_walls`: a wall action for each orientation at
     * each strategic position that `can_put_wall` accepts, and no other;
     * the board keeps its walls, pawns and turn; only the flags of the
     * walls tried are left switched on, which on a consistent board leaves
     * every flag as it was, and the state memo is dropped once a wall was
     * tried.
     */
    method GenerateStrategicWalls(reach: Reach, shortestPaths: seq<Option<seq<Coord>>>) returns (actions: seq<Action>)
      requires board.Snapshot().WellFormed() && |shortestPaths| == |board.pawns|
      modifies board
      ensures var g0 := old(board.Snapshot());
        && StrategicWalls(g0, reach, shortestPaths, actions)
        && ProbedSoFar(g0, Spots(g0, shortestPaths), old(board.state), board.paths, board.state)
      ensures old(Consistent(board.Snapshot())) ==> board.paths == old(board.paths)
      ensures board.walls == old(board.walls) && board.pawns == old(board.pawns) && board.player == old(board.player)
    {
      ghost var g0 := board.Snapshot();
      var positions := StrategicPositions(board.rows, board.cols, Coords(board.pawns), shortestPaths, board.player);
      assert positions == Spots(g0, shortestPaths);
      actions := WallsAtAll(positions, reach);
      if Consistent(g0) {
        ProbesKeepFlags(g0, positions);
      }
    }

    /**
     * The memoised part of `available_actions`: the wall actions remembered
     * for the wall layout `k`; the first time, those `GenerateStrategicWalls`
     * finds, remembered under `k`. Only a generation touches the board.
     */
    method WallActionsFor(k: string, reach: Reach, shortestPaths: seq<Option<seq<Coord>>>)
      returns (wallActions: seq<Action>)
      requires board.Snapshot().WellFormed() && |shortestPaths| == |board.pawns|
      requires OnlyWalls(wallMemo)
      modifies board, this`wallMemo
      ensures OnlyWalls(wallMemo)
      ensures k in wallMemo && wallActions == wallMemo[k]
      ensures k in old(wallMemo) ==> wallMemo == old(wallMemo)
      ensures k !in old(wallMemo) ==>
        wallMemo == old(wallMemo)[k := wallActions] && StrategicWalls(old(board.Snapshot()), reach, shortestPaths, wallActions)
      ensures ProbeEffect(old(board.Snapshot()), shortestPaths, k !in old(wallMemo), old(board.state), board.paths, board.state)
      ensures old(Consistent(board.Snapshot())) ==> board.paths == old(board.paths)
      ensures board.walls == old(board.walls) && board.pawns == old(board.pawns) && board.player == old(board.player)
    {
      if k in wallMemo {
        wallActions := wallMemo[k];
      } else {
        wallActions := GenerateStrategicWalls(reach, shortestPaths);
        wallMemo := wallMemo[k := wallActions];
      }
    }

    /**
     * The wall part of `available_actions`: nothing when the current
     * player has no wall left, otherwise `WallActionsFor` the wall layout
     * key taken from the board state.
     */
    method WallPart(reach: Reach, shortestPaths: seq<Option<seq<Coord>>>, boardState: string) returns (ws: seq<Action>)
      requires board.Snapshot().WellFormed() && |shortestPaths| == |board.pawns|
      requires OnlyWalls(wallMemo)
      modifies board, this`wallMemo
      ensures OnlyWalls(wallMemo) && forall a :: a in ws ==> a.PlaceWall?
      ensures var g0 := old(board.Snapshot());
        var k := Suffix(boardState, 1 + 4 * |g0.pawns|);
        && ws == (if g0.Current().walls != 0 && k in wallMemo then wallMemo[k] else [])
        && WallMemoStep(g0, reach, shortestPaths, k, old(wallMemo), wallMemo, ws)
        && ProbeEffect(g0, shortestPaths, g0.Current().walls != 0 && k !in old(wallMemo), old(board.state),
                       board.paths, board.state)
      ensures old(Consistent(board.Snapshot())) ==> board.paths == old(board.paths)
      ensures board.walls == old(board.walls) && board.pawns == old(board.pawns) && board.player == old(board.player)
    {
      if board.pawns[board.player].walls == 0 {
        return [];
      }
      var k := Suffix(boardState, 1 + 4 * |board.pawns|);
      ws := WallActionsFor(k, reach, shortestPaths);
    }

    /**
     * `available_actions`: the pawn's moves (least recently visited
     * destinations first when it has a move history), a power bomb when it
     * has one, and, when it has walls left, the strategic walls for the
     * current wall layout, remembered in `wallMemo`; all of it in the
     * search order of `OrderActions`. The board keeps its walls, pawns and
     * turn, and on a consistent board its flags too.
     */
    method AvailableActions(validMoves: seq<Coord>, reach: Reach, shortestPaths: seq<Option<seq<Coord>>>,
                            boardState: string) returns (actions: seq<Action>)
      requires board.Snapshot().WellFormed() && |shortestPaths| == |board.pawns|
      requires OnlyWalls(wallMemo)
      modifies board, this`wallMemo
      ensures OnlyWalls(wallMemo)
      ensures var g0 := old(board.Snapshot());
        var basic := BasicActions(g0.Current(), validMoves);
        var k := Suffix(boardState, 1 + 4 * |g0.pawns|);
        var ws := if g0.Current().walls != 0 && k in wallMemo then wallMemo[k] else [];
        && WallMemoStep(g0, reach, shortestPaths, k, old(wallMemo), wallMemo, ws)
        && actions == OrderActions(g0.rows, g0.pawns, g0.player, basic + ws)
        && multiset(actions) == multiset(basic) + multiset(ws)
        && (forall a :: a in ws ==> a.PlaceWall?)
      ensures var g0 := old(board.Snapshot());
        var k := Suffix(boardState, 1 + 4 * |g0.pawns|);
        ProbeEffect(g0, shortestPaths, g0.Current().walls != 0 && k !in old(wallMemo), old(board.state),
                    board.paths, board.state)
      ensures old(Consistent(board.Snapshot())) ==> board.paths == old(board.paths)
      ensures board.walls == old(board.walls) && board.pawns == old(board.pawns) && board.player == old(board.player)
    {
      var me := board.player;
      var cur := board.pawns[me];
      var result := PawnMoves(cur.history, cur.coord, validMoves);
      if cur.bombs > 0 {
        result := result + [PowerBomb(cur.coord)];
      }
      assert result == BasicActions(cur, validMoves);
      var ws := WallPart(reach, shortestPaths, boardState);
      actions := OrderActions(board.rows, board.pawns, me, result + ws);
    }
  }
}
