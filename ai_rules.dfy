/**
 * The rules the AI (ai/ai.py) applies when it lists and orders actions:
 * the quick wall-collision check, the integer priorities of moves and
 * walls, the three-tier order of actions and the move-history score that
 * pre-sorts the pawn moves.
 */
module AiRules {
  import opened Wrappers
  import opened Geometry
  import opened Walls
  import opened Pawns
  import opened Actions
  import opened Boards
  import opened Sorting

  // ---------------------------------------------------------------------
  // _has_wall_collision
  // ---------------------------------------------------------------------

  /**
   * The test `_has_wall_collision` applies to one placed wall `s` for a
   * candidate at `c` with orientation `h`: same cell; or, when parallel,
   * neighbours along the wall's direction; or, when crossing, same cell.
   */
  predicate QuickCollides(s: Slot, c: Coord, h: bool)
  {
    if s.coord == c then true
    else if s.horiz == h then
      if h then s.coord.row == c.row && Abs(s.coord.col - c.col) == 1
      else s.coord.col == c.col && Abs(s.coord.row - c.row) == 1
    else s.coord.row == c.row && s.coord.col == c.col
  }

  /** The quick test agrees with `Wall.collides` of the candidate against the placed wall. */
  lemma QuickCollidesAgrees(w: Wall, c: Coord, h: bool)
    ensures QuickCollides(w.Key(), c, h) <==> Collides(Wall(c, h, None), w)
  {
    CollidesGeometry(Wall(c, h, None), w);
  }

  /**
   * `_has_wall_collision`: scans the placed walls and stops at the first
   * one the quick test flags; the answer is whether the candidate collides
   * with some placed wall.
   */
  method HasWallCollision(walls: map<Slot, Option<nat>>, c: Coord, h: bool) returns (r: bool)
    ensures r <==> CollidesAny(walls, Wall(c, h, None))
  {
    var rest := walls.Keys;
    while rest != {}
      invariant rest <= walls.Keys
      invariant forall s :: s in walls && s !in rest ==> !QuickCollides(s, c, h)
      decreases rest
    {
      var s :| s in rest;
      if QuickCollides(s, c, h) {
        QuickCollidesAgrees(WallAt(walls, s), c, h);
        return true;
      }
      rest := rest - {s};
    }
    forall s | s in walls
      ensures !Collides(Wall(c, h, None), WallAt(walls, s))
    {
      QuickCollidesAgrees(WallAt(walls, s), c, h);
    }
    return false;
  }

  // ---------------------------------------------------------------------
  // _evaluate_move_priority
  // ---------------------------------------------------------------------

  /** Rows still to go from `dest`: pawn A heads for row 0, pawn B for the last row. */
  function GoalDistance(colour: Colour, rows: int, dest: Coord): int
  {
    if colour == ColourA then dest.row else rows - 1 - dest.row
  }

  /** Rows gained towards the goal by moving from `cur` to `dest`. */
  function Progress(colour: Colour, cur: Coord, dest: Coord): int
  {
    if colour == ColourA then cur.row - dest.row else dest.row - cur.row
  }

  /** `_evaluate_move_priority`: ten points per row of progress, minus the rows still to go. */
  function MovePriority(colour: Colour, rows: int, cur: Coord, dest: Coord): int
  {
    Progress(colour, cur, dest) * 10 - GoalDistance(colour, rows, dest)
  }

  /**
   * Among the moves of one pawn, a move scores higher exactly when it makes
   * more progress towards the goal row, so forward beats sideways beats
   * backward; the column of the destination plays no part.
   */
  lemma MovePriorityMonotone(colour: Colour, rows: int, cur: Coord, d1: Coord, d2: Coord)
    ensures MovePriority(colour, rows, cur, d1) > MovePriority(colour, rows, cur, d2)
        <==> Progress(colour, cur, d1) > Progress(colour, cur, d2)
    ensures d1.row == d2.row ==> MovePriority(colour, rows, cur, d1) == MovePriority(colour, rows, cur, d2)
  {
  }

  // ---------------------------------------------------------------------
  // _evaluate_wall_priority
  // ---------------------------------------------------------------------

  function Min(a: nat, b: nat): nat
  {
    if a <= b then a else b
  }

  /** Some index below `n` other than `me`: a pawn list of length `n` holds an opponent. */
  predicate HasOpponent(n: int, me: int)
  {
    n >= 2 || (n == 1 && me != 0)
  }

  /**
   * The smallest Manhattan distance from `c` to a pawn other than the one
   * at index `me`; 0 when there is no such pawn (see `WallPriority`).
   */
  function MinOpponentDistance(c: Coord, pawns: seq<Pawn>, me: int): (d: nat)
    ensures HasOpponent(|pawns|, me) ==>
      && (exists i :: 0 <= i < |pawns| && i != me && d == Manhattan(c, pawns[i].coord))
      && (forall i :: 0 <= i < |pawns| && i != me ==> d <= Manhattan(c, pawns[i].coord))
    ensures !HasOpponent(|pawns|, me) ==> d == 0
    decreases |pawns|
  {
    if pawns == [] then 0
    else
      var n := |pawns| - 1;
      var front := MinOpponentDistance(c, pawns[..n], me);
      assert forall i :: 0 <= i < n ==> pawns[..n][i] == pawns[i];
      if n == me then front
      else if !HasOpponent(n, me) then Manhattan(c, pawns[n].coord)
      else Min(front, Manhattan(c, pawns[n].coord))
  }

  /**
   * A horizontal wall stands in the way of an opponent heading up (pawn A)
   * when it is on or above the opponent's row, and of one heading down
   * (pawn B) when it is on or below it.
   */
  predicate Blocks(p: Pawn, c: Coord, h: bool)
  {
    h && (if p.colour == ColourA then c.row <= p.coord.row else c.row >= p.coord.row)
  }

  /** Indices below `n`, other than `me`, of the pawns the wall stands in the way of. */
  function BlockersBelow(pawns: seq<Pawn>, me: int, c: Coord, h: bool, n: int): set<int>
    requires n <= |pawns|
  {
    set k | 0 <= k < n && k != me && Blocks(pawns[k], c, h)
  }

  /**
   * `_evaluate_wall_priority`: five points per opponent the wall stands in
   * the way of, minus the distance to the nearest opponent. With no
   * opponent every wall scores 0, so all walls tie, as they do in the
   * source, where they all score minus infinity.
   */
  function WallPriority(pawns: seq<Pawn>, me: int, c: Coord, h: bool): int
  {
    5 * |BlockersBelow(pawns, me, c, h, |pawns|)| - MinOpponentDistance(c, pawns, me)
  }

  /**
   * A vertical wall scores minus the distance to the nearest opponent; the
   * horizontal wall at the same place scores five points more per opponent
   * it stands in the way of.
   */
  lemma WallPriorityOrientation(pawns: seq<Pawn>, me: int, c: Coord)
    ensures WallPriority(pawns, me, c, false) == -(MinOpponentDistance(c, pawns, me) as int)
    ensures WallPriority(pawns, me, c, true) - WallPriority(pawns, me, c, false)
         == 5 * |BlockersBelow(pawns, me, c, true, |pawns|)|
  {
    assert BlockersBelow(pawns, me, c, false, |pawns|) == {};
  }

  /** One more pawn in the prefix: the minimum takes it in unless it is `me`. */
  lemma MinOpponentStep(c: Coord, pawns: seq<Pawn>, me: int, i: int)
    requires 0 <= i < |pawns|
    ensures MinOpponentDistance(c, pawns[..i + 1], me)
         == if i == me then MinOpponentDistance(c, pawns[..i], me)
            else if !HasOpponent(i, me) then Manhattan(c, pawns[i].coord)
            else Min(MinOpponentDistance(c, pawns[..i], me), Manhattan(c, pawns[i].coord))
  {
    var prefix := pawns[..i + 1];
    assert prefix[..i] == pawns[..i] && prefix[i] == pawns[i];
  }

  /** One more index: the blockers gain `i` exactly when pawn `i` is an opponent the wall blocks. */
  lemma BlockersStep(pawns: seq<Pawn>, me: int, c: Coord, h: bool, i: int)
    requires 0 <= i < |pawns|
    ensures |BlockersBelow(pawns, me, c, h, i + 1)|
         == |BlockersBelow(pawns, me, c, h, i)| + (if i != me && Blocks(pawns[i], c, h) then 1 else 0)
  {
    if i != me && Blocks(pawns[i], c, h) {
      assert BlockersBelow(pawns, me, c, h, i + 1) == BlockersBelow(pawns, me, c, h, i) + {i};
    } else {
      assert BlockersBelow(pawns, me, c, h, i + 1) == BlockersBelow(pawns, me, c, h, i);
    }
  }

  /**
   * The first loop of `_evaluate_wall_priority`: the running minimum of
   * the distances to the opponents, `None` standing for the initial
   * infinity, which stays when there is no opponent.
   */
  method NearestOpponent(pawns: seq<Pawn>, me: int, c: Coord) returns (best: Option<nat>)
    ensures best == None <==> !HasOpponent(|pawns|, me)
    ensures best.Some? ==> best.value == MinOpponentDistance(c, pawns, me)
  {
    best := None;
    var i := 0;
    while i < |pawns|
      invariant 0 <= i <= |pawns|
      invariant best == None <==> !HasOpponent(i, me)
      invariant best.Some? ==> best.value == MinOpponentDistance(c, pawns[..i], me)
    {
      MinOpponentStep(c, pawns, me, i);
      if i != me {
        var d := Manhattan(c, pawns[i].coord);
        best := if best == None then Some(d) else Some(Min(best.value, d));
      }
      i := i + 1;
    }
    assert pawns[..|pawns|] == pawns;
  }

  /** The second loop of `_evaluate_wall_priority`: five points per opponent the wall blocks. */
  method BlockingScore(pawns: seq<Pawn>, me: int, c: Coord, h: bool) returns (blocking: int)
    ensures blocking == 5 * |BlockersBelow(pawns, me, c, h, |pawns|)|
  {
    blocking := 0;
    var i := 0;
    while i < |pawns|
      invariant 0 <= i <= |pawns|
      invariant blocking == 5 * |BlockersBelow(pawns, me, c, h, i)|
    {
      BlockersStep(pawns, me, c, h, i);
      if i != me && Blocks(pawns[i], c, h) {
        blocking := blocking + 5;
      }
      i := i + 1;
    }
  }

  /** `_evaluate_wall_priority`: the blocking score minus the nearest distance. */
  method EvaluateWallPriority(pawns: seq<Pawn>, me: int, c: Coord, h: bool) returns (score: int)
    ensures score == WallPriority(pawns, me, c, h)
  {
    var best := NearestOpponent(pawns, me, c);
    var blocking := BlockingScore(pawns, me, c, h);
    score := blocking - (if best.Some? then best.value else 0);
  }

  // ---------------------------------------------------------------------
  // _order_actions
  // ---------------------------------------------------------------------

  /** Moves first, then the power bomb, then walls. */
  function Tier(a: Action): int
  {
    match a
    case MovePawn(_, _) => 0
    case PowerBomb(_) => 1
    case PlaceWall(_, _) => 2
  }

  /** The priority of an action for the pawn `cur` at index `me`; the bomb has none. */
  function ActionScore(rows: int, pawns: seq<Pawn>, me: int, cur: Pawn, a: Action): int
  {
    match a
    case MovePawn(_, dest) => MovePriority(cur.colour, rows, cur.coord, dest)
    case PowerBomb(_) => 0
    case PlaceWall(c, h) => WallPriority(pawns, me, c, h)
  }

  /** The sort key `action_priority`: the tier, then the score, highest first. */
  function PriorityKey(rows: int, pawns: seq<Pawn>, me: int, cur: Pawn, a: Action): (int, int)
  {
    (Tier(a), -ActionScore(rows, pawns, me, cur, a))
  }

  /** The sort key of `_order_actions` for the pawn at index `me`. */
  function OrderKey(rows: int, pawns: seq<Pawn>, me: int): Action -> (int, int)
    requires 0 <= me < |pawns|
  {
    var cur := pawns[me];
    (a: Action) => PriorityKey(rows, pawns, me, cur, a)
  }

  /**
   * `_order_actions` for the current pawn at index `me`: a reordering of
   * the actions with all moves first, then the bomb, then the walls, and
   * within each kind the higher priority first; actions of equal priority
   * keep the order they came in, as Python's `sorted` is stable.
   */
  function OrderActions(rows: int, pawns: seq<Pawn>, me: int, actions: seq<Action>): (r: seq<Action>)
    requires 0 <= me < |pawns|
    ensures multiset(r) == multiset(actions)
    ensures forall i, j :: 0 <= i < j < |r| ==> Tier(r[i]) <= Tier(r[j])
    ensures forall i, j :: 0 <= i < j < |r| && Tier(r[i]) == Tier(r[j]) ==>
      ActionScore(rows, pawns, me, pawns[me], r[i]) >= ActionScore(rows, pawns, me, pawns[me], r[j])
    ensures forall k :: WithKey(r, OrderKey(rows, pawns, me), k) == WithKey(actions, OrderKey(rows, pawns, me), k)
  {
    var key := OrderKey(rows, pawns, me);
    var r := SortBy(actions, key);
    assert forall i, j :: 0 <= i < j < |r| ==> KeyLe(key(r[i]), key(r[j]));
    assert forall k :: WithKey(r, key, k) == WithKey(actions, key, k) by {
      forall k
        ensures WithKey(r, key, k) == WithKey(actions, key, k)
      {
        SortByStable(actions, key, k);
      }
    }
    r
  }

  // ---------------------------------------------------------------------
  // move_score in available_actions
  // ---------------------------------------------------------------------

  /** `list.index`: the first position of `x`. */
  function IndexOf(xs: seq<Coord>, x: Coord): (i: nat)
    requires x in xs
    ensures i < |xs| && xs[i] == x
    ensures forall j :: 0 <= j < i ==> xs[j] != x
  {
    if xs[0] == x then 0 else 1 + IndexOf(xs[1..], x)
  }

  /**
   * `move_score`: 0 for a cell not in the move history, otherwise the
   * distance of its first occurrence from the end, so cells first left
   * more recently score higher (worse).
   */
  function HistoryScore(history: seq<Coord>, dest: Coord): (r: nat)
    ensures dest !in history ==> r == 0
    ensures dest in history ==>
      && 1 <= r <= |history|
      && history[|history| - r] == dest
      && (forall j :: 0 <= j < |history| - r ==> history[j] != dest)
  {
    if dest in history then |history| - IndexOf(history, dest) else 0
  }

  /** The sort key of the pawn moves: `move_score`. */
  function HistoryKey(history: seq<Coord>): Coord -> (int, int)
  {
    (d: Coord) => (HistoryScore(history, d), 0)
  }

  /** The destinations of a sequence of moves. */
  function Dests(moves: seq<Action>): seq<Coord>
    requires forall i :: 0 <= i < |moves| ==> moves[i].MovePawn?
  {
    seq(|moves|, i requires 0 <= i < |moves| => moves[i].dest)
  }

  /**
   * The pawn moves of `available_actions`: one move from `from` per valid
   * destination, in the order given when the move history is empty, and
   * otherwise sorted by `move_score`, destinations of equal score keeping
   * the order given.
   */
  function PawnMoves(history: seq<Coord>, from: Coord, dests: seq<Coord>): (r: seq<Action>)
    ensures |r| == |dests|
    ensures forall i :: 0 <= i < |r| ==> r[i].MovePawn? && r[i].orig == from
    ensures multiset(Dests(r)) == multiset(dests)
    ensures history == [] ==> Dests(r) == dests
    ensures history != [] ==> forall i, j :: 0 <= i < j < |r| ==>
      HistoryScore(history, r[i].dest) <= HistoryScore(history, r[j].dest)
    ensures history != [] ==> forall k :: WithKey(Dests(r), HistoryKey(history), k) == WithKey(dests, HistoryKey(history), k)
  {
    var key := HistoryKey(history);
    var sorted := if history == [] then dests else SortBy(dests, key);
    assert history != [] ==> forall i, j :: 0 <= i < j < |sorted| ==> KeyLe(key(sorted[i]), key(sorted[j]));
    assert history != [] ==> forall k :: WithKey(sorted, key, k) == WithKey(dests, key, k) by {
      forall k | history != []
        ensures WithKey(sorted, key, k) == WithKey(dests, key, k)
      {
        SortByStable(dests, key, k);
      }
    }
    var r := seq(|sorted|, i requires 0 <= i < |sorted| => MovePawn(from, sorted[i]));
    assert Dests(r) == sorted;
    r
  }
}
