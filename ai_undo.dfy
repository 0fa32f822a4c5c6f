/**
 * What the AI's `do_action` and `undo_action` (ai/ai.py) do to the game,
 * as functions on `Game` values, and the round trip between them: undoing
 * an action right after doing it gives back the game it started from.
 *
 * `do_action` leaves on the action what `undo_action` needs (the wall
 * placed; the walls a bomb destroyed and the walls it returned to each
 * owner); here that is a `Record`.
 */
module AiUndo {
  import opened Wrappers
  import opened Geometry
  import opened Walls
  import opened Pawns
  import opened Actions
  import opened Boards

  /**
   * What `do_action` keeps for the undo: the wall put (`_wall_object`);
   * the destroyed walls and the per-owner returns of a power bomb
   * (`_destroyed_walls`, `_wall_returns`) and whether a bomb was spent;
   * nothing for a move.
   */
  datatype Record =
    | Placed(wall: Wall)
    | Bombed(destroyed: seq<Wall>, refunds: map<nat, nat>, spent: bool)
    | Moved

  /** The record is of the kind the action leaves. */
  predicate Fits(a: Action, rec: Record)
  {
    match a
    case PlaceWall(_, _) => rec.Placed?
    case PowerBomb(_) => rec.Bombed?
    case MovePawn(_, _) => rec.Moved?
  }

  /** The game with the current pawn replaced by `p`. */
  function WithCurrent(g: Game, p: Pawn): (r: Game)
    requires g.WellFormed()
    ensures r.WellFormed() && r.Current() == p
  {
    g.(pawns := g.pawns[g.player := p])
  }

  /**
   * `AI.do_action`: a wall is put with the current player as owner and
   * costs one wall; a power bomb does nothing when the current player has
   * none left, and otherwise goes off as `execute_power_bomb` does and
   * costs one bomb; a move sets the pawn on its destination.
   */
  ghost function ApplyGame(g: Game, a: Action): (r: Game)
    requires g.WellFormed()
    ensures r.WellFormed() && r.player == g.player
  {
    var cur := g.Current();
    match a
    case PlaceWall(c, h) =>
      var g1 := PutWallGame(g, Wall(c, h, Some(cur.id)));
      WithCurrent(g1, cur.(walls := cur.walls - 1))
    case PowerBomb(center) =>
      if cur.bombs <= 0 then g
      else
        var g1 := BombGame(g, center);
        WithCurrent(g1, g1.Current().(bombs := cur.bombs - 1))
    case MovePawn(_, dest) =>
      WithCurrent(g, cur.(coord := dest))
  }

  /**
   * Walls put and bombs set off by the AI change the game exactly as the
   * board's own `do_action` does; a move differs only in leaving the move
   * history alone.
   */
  lemma ApplyAgreesWithBoard(g: Game, a: Action)
    requires g.WellFormed()
    ensures a.PlaceWall? ==> ApplyGame(g, a) == BoardDoAction(g, a)
    ensures a.PowerBomb? && g.Current().bombs > 0 ==> ApplyGame(g, a) == BoardDoAction(g, a)
    ensures a.MovePawn? ==>
      ApplyGame(g, a) == BoardDoAction(g, a).(pawns := BoardDoAction(g, a).pawns[g.player :=
        BoardDoAction(g, a).Current().(history := g.Current().history, lastCoord := g.Current().lastCoord)])
  {
  }

  /** `refunds` holds, per owner with a pawn, how many of the walls `ds` of `walls` it owned. */
  ghost predicate RefundsOk(pawns: seq<Pawn>, walls: map<Slot, Option<nat>>, ds: set<Slot>, refunds: map<nat, nat>)
  {
    forall o: nat ::
      && (o in refunds <==> o < |pawns| && Tally(walls, ds, o) > 0)
      && (o in refunds ==> refunds[o] == Tally(walls, ds, o))
  }

  /** The record `do_action` leaves when it applies `a` to `g`. */
  ghost predicate RecordOk(g: Game, a: Action, rec: Record)
    requires g.WellFormed()
  {
    match a
    case PlaceWall(c, h) => rec == Placed(Wall(c, h, Some(g.Current().id)))
    case PowerBomb(center) =>
      if g.Current().bombs <= 0 then rec == Bombed([], map[], false)
      else
        && rec.Bombed? && rec.spent
        && Listed(g.walls, rec.destroyed)
        && KeysOf(rec.destroyed) == Blasted(g, center)
        && RefundsOk(g.pawns, g.walls, Blasted(g, center), rec.refunds)
    case MovePawn(_, _) => rec == Moved
  }

  /** The walls of `walls` whose identities are in `ds`. */
  function Restrict(walls: map<Slot, Option<nat>>, ds: set<Slot>): map<Slot, Option<nat>>
  {
    map s | s in walls && s in ds :: walls[s]
  }

  /** The loop of `undo_action` that puts the destroyed walls back, in order. */
  function RestoreWalls(g: Game, ds: seq<Wall>): (r: Game)
    ensures r.rows == g.rows && r.cols == g.cols && r.numPlayers == g.numPlayers
    ensures r.player == g.player && r.pawns == g.pawns
    decreases |ds|
  {
    if ds == [] then g
    else PutWallGame(RestoreWalls(g, ds[..|ds| - 1]), ds[|ds| - 1])
  }

  /**
   * Putting back distinct walls of `w0` that are not on the board adds
   * them with their owners and switches all their flags off.
   */
  lemma {:induction false} RestoreWallsEffect(h: Game, ds: seq<Wall>, w0: map<Slot, Option<nat>>)
    requires Listed(w0, ds)
    requires forall s :: s in KeysOf(ds) ==> s !in h.walls
    ensures RestoreWalls(h, ds) == h.(walls := h.walls + Restrict(w0, KeysOf(ds)),
                                      paths := SetFlags(h.paths, UnionFlags(h.rows, h.cols, KeysOf(ds)), false))
  {
    if ds == [] {
      assert h.walls + Restrict(w0, {}) == h.walls;
      assert SetFlags(h.paths, UnionFlags(h.rows, h.cols, {}), false) == h.paths;
    } else {
      var front, last := ds[..|ds| - 1], ds[|ds| - 1];
      assert ds == front + [last];
      ListedFront(w0, front, last);
      KeysOfAppend(front, last);
      RestoreWallsEffect(h, front, w0);
      var k := last.Key();
      var h1 := RestoreWalls(h, front);
      assert h1.walls == h.walls + Restrict(w0, KeysOf(front));
      assert k !in h1.walls;
      RestrictAdd(h.walls, w0, KeysOf(front), k);
      SetFlagsTwice(h.paths, UnionFlags(h.rows, h.cols, KeysOf(front)), WallFlags(h.rows, h.cols, k), false);
      UnionFlagsAdd(h.rows, h.cols, KeysOf(front), k);
      assert RestoreWalls(h, ds) == PutWallGame(h1, last);
    }
  }

  lemma RestrictAdd(base: map<Slot, Option<nat>>, w0: map<Slot, Option<nat>>, ds: set<Slot>, k: Slot)
    requires k in w0
    ensures (base + Restrict(w0, ds))[k := w0[k]] == base + Restrict(w0, ds + {k})
  {
  }

  /** The loop of `undo_action` that takes the returned walls back from their owners. */
  function Deducted(pawns: seq<Pawn>, refunds: map<nat, nat>): (r: seq<Pawn>)
    ensures |r| == |pawns|
  {
    seq(|pawns|, i requires 0 <= i < |pawns| =>
      pawns[i].(walls := pawns[i].walls - (if i in refunds then refunds[i] else 0)))
  }

  /**
   * Undoing a power bomb: the destroyed walls are put back, the returned
   * walls taken back, and the bomb given back when `giveBack` holds.
   */
  function UndoBomb(g: Game, ds: seq<Wall>, refunds: map<nat, nat>, giveBack: bool): (r: Game)
    requires g.WellFormed()
    ensures r.WellFormed()
  {
    var g1 := RestoreWalls(g, ds);
    var g2 := g1.(pawns := Deducted(g1.pawns, refunds));
    if giveBack then WithCurrent(g2, g2.Current().(bombs := g2.Current().bombs + 1)) else g2
  }

  /**
   * `undo_action`, with the bomb given back only when `do_action` spent
   * one: the wall put is removed and returned to the player; a bomb is
   * undone by `UndoBomb`; the pawn goes back to the move's origin.
   */
  function UndoGame(g: Game, a: Action, rec: Record): (r: Game)
    requires g.WellFormed() && Fits(a, rec)
    ensures r.WellFormed()
  {
    match a
    case PlaceWall(_, _) =>
      var g1 := RemoveWallGame(g, rec.wall);
      WithCurrent(g1, g1.Current().(walls := g1.Current().walls + 1))
    case PowerBomb(_) => UndoBomb(g, rec.destroyed, rec.refunds, rec.spent)
    case MovePawn(orig, _) => WithCurrent(g, g.Current().(coord := orig))
  }

  /**
   * `undo_action` as written: for a power bomb it always gives one bomb
   * back, also when `do_action` returned early without spending one.
   */
  function UndoGameAsWritten(g: Game, a: Action, rec: Record): (r: Game)
    requires g.WellFormed() && Fits(a, rec)
    ensures r.WellFormed()
  {
    if a.PowerBomb? then UndoBomb(g, rec.destroyed, rec.refunds, true) else UndoGame(g, a, rec)
  }

  /**
   * When the current player has no bomb left, `do_action` of a power bomb
   * changes nothing, yet the written undo hands the player a bomb, so the
   * round trip does not give back the game it started from.
   */
  lemma UndoBombAsWrittenGainsBomb(g: Game, center: Coord)
    requires g.WellFormed() && g.Current().bombs <= 0
    ensures var a, rec := PowerBomb(center), Bombed([], map[], false);
      && RecordOk(g, a, rec)
      && ApplyGame(g, a) == g
      && UndoGameAsWritten(ApplyGame(g, a), a, rec).Current().bombs == g.Current().bombs + 1
      && UndoGameAsWritten(ApplyGame(g, a), a, rec) != g
  {
    var a, rec := PowerBomb(center), Bombed([], map[], false);
    var g1 := RestoreWalls(g, []);
    assert g1 == g;
    assert Deducted(g.pawns, map[]) == g.pawns;
  }

  /**
   * The conditions under which undo gives back the exact game: a move
   * starts from the pawn's cell; a wall is new and its flags are on; every
   * placed wall has its flags off before a bomb.
   */
  predicate Undoable(g: Game, a: Action)
    requires g.WellFormed()
  {
    match a
    case MovePawn(orig, _) => orig == g.Current().coord
    case PlaceWall(c, h) => Slot(c, h) !in g.walls && FlagsOpen(g, Slot(c, h))
    case PowerBomb(_) => WallsClosed(g)
  }

  lemma PlaceRoundTrip(g: Game, c: Coord, h: bool)
    requires g.WellFormed() && Undoable(g, PlaceWall(c, h))
    ensures UndoGame(ApplyGame(g, PlaceWall(c, h)), PlaceWall(c, h), Placed(Wall(c, h, Some(g.Current().id)))) == g
  {
    var w := Wall(c, h, Some(g.Current().id));
    PutRemoveRoundTrip(g, w);
    var g1 := PutWallGame(g, w);
    var g2 := WithCurrent(g1, g.Current().(walls := g.Current().walls - 1));
    assert RemoveWallGame(g2, w) == WithCurrent(RemoveWallGame(g1, w), g2.Current());
    assert g.pawns[g.player := g.Current()] == g.pawns;
  }

  /**
   * Putting back the walls a sweep took from `g0` restores its walls, and
   * its flags too when every placed wall had its flags off.
   */
  lemma RestoreAfterSweep(h: Game, ds: seq<Wall>, g0: Game)
    requires Listed(g0.walls, ds) && WallsClosed(g0)
    requires h.rows == g0.rows && h.cols == g0.cols
    requires h.walls == Without(g0.walls, KeysOf(ds))
    requires h.paths == SetFlags(g0.paths, UnionFlags(h.rows, h.cols, KeysOf(ds)), true)
    ensures RestoreWalls(h, ds).walls == g0.walls && RestoreWalls(h, ds).paths == g0.paths
  {
    var fs := UnionFlags(h.rows, h.cols, KeysOf(ds));
    RestoreWallsEffect(h, ds, g0.walls);
    assert Without(g0.walls, KeysOf(ds)) + Restrict(g0.walls, KeysOf(ds)) == g0.walls;
    forall f | f in fs
      ensures f in g0.paths && !g0.paths[f]
    {
      var s :| s in KeysOf(ds) && f in WallFlags(h.rows, h.cols, s);
      var i :| 0 <= i < |ds| && ds[i].Key() == s;
      ClosedFlag(g0, s, f);
    }
    SetFlagsUndo(g0.paths, fs, false);
  }

  lemma ClosedFlag(g: Game, s: Slot, f: Flag)
    requires WallsClosed(g) && s in g.walls && f in WallFlags(g.rows, g.cols, s)
    ensures f in g.paths && !g.paths[f]
  {
  }

  /** The board of a spent bomb: the blasted walls gone and their flags on. */
  lemma SpentBombBoard(g: Game, center: Coord)
    requires g.WellFormed() && g.Current().bombs > 0
    ensures var g1 := ApplyGame(g, PowerBomb(center));
      && g1.rows == g.rows && g1.cols == g.cols
      && g1.walls == Without(g.walls, Blasted(g, center))
      && g1.paths == SetFlags(g.paths, UnionFlags(g.rows, g.cols, Blasted(g, center)), true)
  {
  }

  /** A spent bomb's undo puts back the walls and switches their flags off again. */
  lemma BombRestoresBoard(g: Game, center: Coord, rec: Record)
    requires g.WellFormed() && WallsClosed(g) && g.Current().bombs > 0
    requires RecordOk(g, PowerBomb(center), rec)
    ensures var g2 := RestoreWalls(ApplyGame(g, PowerBomb(center)), rec.destroyed);
      g2.walls == g.walls && g2.paths == g.paths
  {
    SpentBombBoard(g, center);
    RestoreAfterSweep(ApplyGame(g, PowerBomb(center)), rec.destroyed, g);
  }

  /** A spent bomb's undo takes back exactly the walls the bomb refunded. */
  lemma BombRestoresPawns(g: Game, center: Coord, rec: Record)
    requires g.WellFormed() && g.Current().bombs > 0
    requires RecordOk(g, PowerBomb(center), rec)
    ensures UndoGame(ApplyGame(g, PowerBomb(center)), PowerBomb(center), rec).pawns == g.pawns
  {
    var ds := Blasted(g, center);
    var g1 := ApplyGame(g, PowerBomb(center));
    var r := UndoGame(g1, PowerBomb(center), rec);
    assert g1.pawns == Refunded(g.pawns, g.walls, ds)[g.player := g1.Current()];
    assert r.pawns == Deducted(g1.pawns, rec.refunds)[g.player := r.Current()];
    forall i | 0 <= i < |g.pawns|
      ensures r.pawns[i] == g.pawns[i]
    {
      RefundDeducted(g.pawns, g.walls, ds, rec.refunds, i);
    }
  }

  /** Taking back the refunds recorded for a pawn leaves it with the walls it had before the bomb. */
  lemma RefundDeducted(pawns: seq<Pawn>, walls: map<Slot, Option<nat>>, ds: set<Slot>, refunds: map<nat, nat>, i: int)
    requires RefundsOk(pawns, walls, ds, refunds) && 0 <= i < |pawns|
    ensures Refunded(pawns, walls, ds)[i].walls - (if i in refunds then refunds[i] else 0) == pawns[i].walls
  {
    assert i in refunds <==> Tally(walls, ds, i) > 0;
  }

  lemma BombRoundTrip(g: Game, center: Coord, rec: Record)
    requires g.WellFormed() && Undoable(g, PowerBomb(center)) && RecordOk(g, PowerBomb(center), rec)
    ensures UndoGame(ApplyGame(g, PowerBomb(center)), PowerBomb(center), rec) == g
  {
    if g.Current().bombs <= 0 {
      assert RestoreWalls(g, []) == g;
      assert Deducted(g.pawns, map[]) == g.pawns;
    } else {
      BombRestoresBoard(g, center, rec);
      BombRestoresPawns(g, center, rec);
    }
  }

  lemma MoveRoundTrip(g: Game, orig: Coord, dest: Coord)
    requires g.WellFormed() && Undoable(g, MovePawn(orig, dest))
    ensures UndoGame(ApplyGame(g, MovePawn(orig, dest)), MovePawn(orig, dest), Moved) == g
  {
    assert g.pawns[g.player := g.Current()] == g.pawns;
  }

  /**
   * Doing an action and undoing it with the record it left gives back the
   * game exactly: the placed walls and their owners, the path flags, every
   * pawn's wall counter, the current pawn's cell and its bomb counter.
   */
  lemma DoUndoRoundTrip(g: Game, a: Action, rec: Record)
    requires g.WellFormed() && Undoable(g, a) && RecordOk(g, a, rec)
    ensures Fits(a, rec) && UndoGame(ApplyGame(g, a), a, rec) == g
  {
    match a
    case PlaceWall(c, h) => PlaceRoundTrip(g, c, h);
    case PowerBomb(center) => BombRoundTrip(g, center, rec);
    case MovePawn(orig, dest) => MoveRoundTrip(g, orig, dest);
  }

  /**
   * The actions the AI does: moves from the pawn's own cell, walls that
   * collide with no placed wall (`can_put_wall` accepts no other), and
   * power bombs anywhere.
   */
  predicate Legal(g: Game, a: Action)
    requires g.WellFormed()
  {
    match a
    case MovePawn(orig, _) => orig == g.Current().coord
    case PlaceWall(c, h) => !CollidesAny(g.walls, Wall(c, h, None))
    case PowerBomb(_) => true
  }

  /** On a consistent board every legal action can be undone exactly. */
  lemma ConsistentUndoable(g: Game, a: Action)
    requires g.WellFormed() && Consistent(g) && Legal(g, a)
    ensures Undoable(g, a)
  {
    match a
    case PlaceWall(c, h) => FreeWallOpen(g, Wall(c, h, None));
    case PowerBomb(_) => ConsistentClosed(g);
    case MovePawn(_, _) =>
  }

  /** A wall `can_put_wall` accepts on a consistent board can be undone exactly. */
  lemma AcceptedWallUndoable(g: Game, c: Coord, h: bool, reach: Reach)
    requires g.WellFormed() && Consistent(g) && CanPutWall(g, Wall(c, h, None), reach)
    ensures Legal(g, PlaceWall(c, h)) && Undoable(g, PlaceWall(c, h))
  {
    ConsistentUndoable(g, PlaceWall(c, h));
  }

  /** The AI's `do_action` of a legal action keeps the board consistent. */
  lemma ApplyKeepsConsistent(g: Game, a: Action)
    requires g.WellFormed() && Consistent(g) && Legal(g, a)
    ensures Consistent(ApplyGame(g, a))
  {
    ApplyAgreesWithBoard(g, a);
    match a
    case PlaceWall(_, _) => DoActionKeepsConsistent(g, a);
    case PowerBomb(_) =>
      if g.Current().bombs > 0 {
        DoActionKeepsConsistent(g, a);
      }
    case MovePawn(_, dest) =>
      assert ApplyGame(g, a) == g.(pawns := g.pawns[g.player := g.Current().(coord := dest)]);
  }

  /**
   * The search's round trip from a consistent board: a legal action keeps
   * it consistent, and undoing it with the record it left gives back the
   * very board it started from.
   */
  lemma ConsistentRoundTrip(g: Game, a: Action, rec: Record)
    requires g.WellFormed() && Consistent(g) && Legal(g, a) && RecordOk(g, a, rec)
    ensures Consistent(ApplyGame(g, a))
    ensures Fits(a, rec) && UndoGame(ApplyGame(g, a), a, rec) == g
  {
    ApplyKeepsConsistent(g, a);
    ConsistentUndoable(g, a);
    DoUndoRoundTrip(g, a, rec);
  }

  /** `previous_player`. */
  function PreviousPlayer(player: int, numPlayers: int): int
    requires 0 < numPlayers
  {
    (player + numPlayers - 1) % numPlayers
  }

  /** `previous_player` and `next_player` undo each other. */
  lemma PreviousUndoesNext(player: int, numPlayers: int)
    requires 0 <= player < numPlayers
    ensures PreviousPlayer(NextPlayer(player, numPlayers), numPlayers) == player
    ensures NextPlayer(PreviousPlayer(player, numPlayers), numPlayers) == player
  {
    var n := numPlayers;
    if player + 1 == n {
      ModOnce(n, n);
      ModOnce(n - 1, n);
    } else {
      ModOnce(player + 1, n);
      ModOnce(player + n, n);
    }
    if player == 0 {
      ModOnce(n - 1, n);
      ModOnce(n, n);
    } else {
      ModOnce(player + n - 1, n);
      ModOnce(player, n);
    }
  }

  /** `x % n` for `0 <= x < 2n`: at most one wrap-around. */
  lemma ModOnce(x: int, n: int)
    requires 0 < n && 0 <= x < 2 * n
    ensures x % n == if x < n then x else x - n
  {
    var q, r := x / n, x % n;
    assert x == q * n + r && 0 <= r < n;
    if x < n {
      assert q == 0;
    } else {
      assert q == 1;
    }
  }
}
