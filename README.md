# Quoridor AI: game state, do/undo and move generation

This project models the game-state core of a two-player Quoridor game with a
search AI and proves properties of it. Besides walls and pawn moves, the
game has a power bomb that clears walls.

- **Walls** (`entities/wall.py`, module `Walls`). A wall is identified by its
  orientation and reference cell. It also records which player placed it.
  The module covers the wall's two cells, the collision test and the
  three-character state string.
- **The board** (`entities/board.py`, module `Boards`). The board is a class
  whose methods update in place:
  - the set of placed walls, a map from wall identity to owner;
  - the open/closed flag of every cell side that a wall switches;
  - the pawns and the current player;
  - the cached state string.

  The module covers `putWall`/`removeWall`, `can_put_wall`, the 3x3 power
  bomb with its wall refunds, the board's `do_action`, `next_player` and
  `wall_affects_coord`. The value type `Game` is the board's state, and
  every method is specified as a function on it. The predicate
  `Consistent` ties the walls to the flags: no two placed walls collide,
  and a wall side is closed exactly when a placed wall closes it. Every
  operation keeps it, and on a consistent board every action the AI tries
  can be undone exactly.
- **The AI** (`ai/ai.py`, modules `AiRules`, `AiUndo`, `AiMemo`,
  `AiPositions`, `Ai`):
  - the simulated `do_action` and its `undo_action`, with a round-trip
    theorem;
  - `available_actions` with the wall-action memo;
  - the strategic wall positions: near a pawn, blocking a shortest path,
    and around the midpoint between the pawns;
  - the quick collision test;
  - action ordering by move and wall priority;
  - `previous_player`;
  - the `clean_memo` eviction pattern, with the regular-expression match
    it relies on.
- **Configuration** (`config.py`, module `Config`): the direction tables and
  the board size, wall count and cell size per difficulty level.

Some dependencies are not part of this model and are passed in as
parameters:

- whether a pawn can still reach its goal is a predicate `Reach` over the
  set of placed walls;
- the pawns' shortest paths are a sequence of `Option<seq<Coord>>`, where
  `None` means reading the path raised;
- the legal destinations of the current pawn are a sequence of cells;
- the board state string is a parameter.

Pawns and actions are records holding the fields the core reads and writes.
They come from `entities/pawn.py` and `ai/action.py`, which are not part of
this model.

## Model

| member | source | states |
|---|---|---|
| Config.Opposite | config.py:119-132 | `OPPOSITE_DIRS` maps each direction to a different one and is its own inverse; the step of the opposite direction is the negated step, so a step and its opposite cancel |
| Config.BoardSettings | config.py:33-79 | the board is square: 9 rows and 10 walls up to level 2, 7 and 7 up to level 4, 5 and 5 beyond; each cell side is at least 30 and is the largest whole size that keeps the board within the footprint of the default 9x9 board |
| Walls.Same | entities/wall.py:26-36 | two walls are equal exactly when they have the same orientation and cell, so equality agrees with the hash of `(horiz, coord)` and ignores the owner |
| Walls.CellsOf | entities/wall.py:38-49 | no cells when the orientation or the cell is unset; otherwise the reference cell and then the next column (horizontal) or the row above (vertical) |
| Walls.CollidesGeometry | entities/wall.py:97-112 | parallel walls collide exactly when they are on the same line at most one step apart; crossing walls collide exactly when they share the reference cell |
| Walls.CollidesSymmetric | entities/wall.py:97-112 | collision does not depend on which wall is asked |
| Walls.CollidesSame | entities/wall.py:97-112 | a wall collides with any wall equal to it |
| Walls.StateRoundTrip | entities/wall.py:114-118 | on boards of at most ten rows and columns a wall's state is three characters ending in 0 or 1, and row, column and orientation can be read back from it |
| Boards.Board.constructor | entities/board.py:64-90 | a new board has player 0, two pawns, no walls and no cached state; the first pawn stands on the last row and the second on row 0, both in column `cols >> 1` with `walls_per_player` walls; with every wall side open the board starts consistent |
| Boards.Board.PutWall | entities/board.py:217-240 | a wall already present changes nothing; otherwise it is added with its owner, the S (horizontal) or W (vertical) flags of its on-board cells are closed, and the cached state is dropped |
| Boards.Board.RemoveWall | entities/board.py:242-265 | an absent wall changes nothing; otherwise it is removed, the same flags are reopened, and the cached state is dropped |
| Boards.PutRemoveRoundTrip | entities/board.py:217-265 | putting a present wall is a no-op; putting then removing a new wall restores the walls, and restores the whole state when its flags were open |
| Boards.SetFlagsUndo | entities/board.py:227-263 | closing and then reopening flags that were open gives back the same flags |
| Boards.Board.CanPutWallCheck | entities/board.py:335-358 | the answer is: the current player has walls left, the wall collides with no placed wall, and every pawn still reaches its goal with it placed; walls, pawns and player are unchanged; once the probe ran, its flags are reopened and the cached state is dropped, and otherwise nothing changes |
| Boards.Board.CollidesPlaced | entities/board.py:342-345 | true exactly when some placed wall collides with the candidate |
| Boards.Board.AllReachGoal | entities/board.py:351-355 | true exactly when every pawn can reach its goal with the current walls |
| Boards.PlacedWallRejected | entities/board.py:335-358 | a wall equal to a placed one is always refused |
| Boards.SpotFlagsInRange | entities/board.py:212-240 | `in_range` never drops a flag of a wall at a wall spot: such a wall switches exactly two flags, both of cells on the board |
| Boards.SharedFlagCollides | entities/board.py:217-240 | two walls that switch a common flag collide |
| Boards.ConsistentClosed | entities/board.py:217-265 | on a consistent board (placed walls pairwise non-colliding, every wall side closed exactly when a placed wall closes it) every placed wall has its flags closed |
| Boards.FreeWallOpen | entities/board.py:335-358 | on a consistent board a wall colliding with no placed wall is new and has all its flags open |
| Boards.ProbeKeepsFlags | entities/board.py:335-358 | on a consistent board the put-and-remove probe of `can_put_wall` leaves every flag as it found it |
| Boards.PutKeepsConsistent | entities/board.py:217-240 | putting a wall that collides with no placed wall keeps the board consistent |
| Boards.RemoveKeepsConsistent | entities/board.py:242-265 | removing a wall keeps the board consistent |
| Boards.TakeOffKeepsConsistent | entities/board.py:242-265 | removing any set of placed walls and reopening their flags keeps the board consistent |
| Boards.BombKeepsConsistent | entities/board.py:641-675 | a power bomb keeps the board consistent |
| Boards.WallAffectsCoord | entities/board.py:677-699 | for either orientation a wall touches exactly the four cells of the 2x2 block at its reference cell |
| Boards.Board.SweepCell | entities/board.py:653-663 | after one cell of the bomb sweep, the destroyed list has gained exactly the walls that touched that cell, each listed once and removed from the board |
| Boards.Board.DestroyOne | entities/board.py:660-663 | an unlisted wall is appended to the destroyed list and removed from the board |
| Boards.Board.SweepBlast | entities/board.py:644-663 | the destroyed list holds exactly the walls that touched the on-board 3x3 block, each once, and those walls are gone from the board |
| Boards.CountOwners | entities/board.py:665-670 | each owner with a pawn gets the number of destroyed walls it owned; no other key appears |
| Boards.CountOwnedTally | entities/board.py:665-670 | counting owners along a duplicate-free destroyed list gives the count over its set of identities |
| Boards.Board.ReturnWalls | entities/board.py:672-674 | each pawn gains its count of walls and is otherwise unchanged |
| Boards.Board.ExecutePowerBomb | entities/board.py:641-675 | the board becomes `BombGame`: the hit walls are removed, their flags reopened, and each owner refunded one wall per destroyed wall it owned; the cached state is dropped exactly when some wall was hit |
| Boards.BombEffects | entities/board.py:641-675 | after a bomb no remaining wall touches a swept cell; every wall that touched none is kept with its owner; each pawn has gained exactly its tally |
| Boards.HistoryBounded | entities/board.py:616-625 | the move history keeps the last at most four cells and ends with the cell just left |
| Boards.Board.DoAction | entities/board.py:599-628 | a wall is put for the current player, who loses one wall; a bomb goes off and the player loses one bomb; a move records the cell left in the history and moves the pawn; the cached state is as the action leaves it, before the board string is read for the mover's AI |
| Boards.DoActionKeepsConsistent | entities/board.py:599-628 | `do_action` keeps the board consistent when the wall it puts collides with no placed wall, as `can_put_wall` guarantees |
| Boards.Finished | entities/board.py:728-732 | the match is finished exactly when some pawn stands on one of its goal cells |
| Boards.FinishedAfterMove | entities/board.py:712-732 | from an unfinished match, a move finishes it exactly when its destination is one of the mover's goal cells |
| Boards.Board.NextPlayerTurn | entities/board.py:430-434 | the turn passes to `(player + 1) % num_players` |
| Sorting.SortBy | ai/ai.py:254 | the result is a permutation of the input ordered by the key, as `sorted` returns |
| Sorting.InsertStable | ai/ai.py:254 | inserting an element puts it in front of the elements with its key and leaves every other key's elements in order |
| Sorting.SortByStable | ai/ai.py:254 | the sort is stable, as `sorted` is: the elements with any one key come out in the order they went in |
| AiRules.QuickCollidesAgrees | ai/ai.py:218-238 | the quick per-wall test of `_has_wall_collision` agrees with `Wall.collides` |
| AiRules.HasWallCollision | ai/ai.py:218-238 | true exactly when some placed wall collides with the candidate |
| AiRules.MovePriorityMonotone | ai/ai.py:256-273 | one move outranks another exactly when it makes more progress towards the goal row; moves to the same row tie |
| AiRules.MinOpponentDistance | ai/ai.py:279-284 | the distance is that of some opponent and no larger than any opponent's |
| AiRules.NearestOpponent | ai/ai.py:279-284 | the loop finds no distance exactly when there is no opponent, and otherwise the nearest opponent's distance |
| AiRules.BlockingScore | ai/ai.py:286-296 | five points per opponent whose way towards its goal row a horizontal wall blocks |
| AiRules.EvaluateWallPriority | ai/ai.py:275-298 | the score is the blocking score minus the nearest-opponent distance |
| AiRules.WallPriorityOrientation | ai/ai.py:275-298 | a vertical wall scores minus the nearest-opponent distance; the horizontal wall at the same cell scores five more per blocked opponent |
| AiRules.OrderActions | ai/ai.py:240-254 | the result is a permutation of the actions: moves first, then bombs, then walls, and within each kind the higher priority first; actions of equal priority keep their input order |
| AiRules.IndexOf | ai/ai.py:58 | `list.index` gives the first position of the element |
| AiRules.HistoryScore | ai/ai.py:55-59 | 0 for a cell not in the history; otherwise the distance from the end of its first occurrence |
| AiRules.PawnMoves | ai/ai.py:49-64 | one move from the pawn's cell per legal destination; with an empty history in the given order, otherwise by ascending history score, destinations of equal score keeping the given order |
| AiUndo.ApplyAgreesWithBoard | ai/ai.py:365-414 | the AI's simulated action equals the board's `do_action` for a wall and for a spent bomb; for a move it differs only in touching neither the move history nor the last cell left (`_last_coord`) |
| AiUndo.RestoreWallsEffect | ai/ai.py:433-437 | putting back a duplicate-free list of destroyed walls restores exactly those walls with their owners, and closes their flags |
| AiUndo.RestoreAfterSweep | ai/ai.py:433-437 | when every placed wall's flags were closed, putting back the swept walls restores the walls and the flags |
| AiUndo.SpentBombBoard | ai/ai.py:382-405 | a spent bomb leaves the walls without the blasted ones and their flags reopened |
| AiUndo.BombRestoresBoard | ai/ai.py:432-437 | undoing a spent bomb gives back the walls and flags |
| AiUndo.RefundDeducted | ai/ai.py:439-442 | taking back a pawn's refund leaves its wall count as it was before the bomb |
| AiUndo.BombRestoresPawns | ai/ai.py:432-444 | undoing a spent bomb gives back every pawn, refunds taken back and the bomb returned |
| AiUndo.PlaceRoundTrip | ai/ai.py:368-431 | placing a new wall whose flags were open and then undoing it gives back the same game |
| AiUndo.BombRoundTrip | ai/ai.py:373-444 | a bomb followed by its undo gives back the same game, whether or not a bomb was spent |
| AiUndo.MoveRoundTrip | ai/ai.py:413-446 | a move from the pawn's cell followed by its undo gives back the same game |
| AiUndo.DoUndoRoundTrip | ai/ai.py:365-446 | for every action, `undo_action` after `do_action` restores the exact game, given the conditions of `Undoable` |
| AiUndo.ConsistentUndoable | ai/ai.py:365-446 | on a consistent board every action the AI does (a move from the pawn's cell, a wall colliding with no placed wall, any bomb) meets the conditions of `Undoable` |
| AiUndo.AcceptedWallUndoable | ai/ai.py:95-104 | on a consistent board every wall `can_put_wall` accepts can be undone exactly |
| AiUndo.ApplyKeepsConsistent | ai/ai.py:365-414 | the AI's `do_action` of such an action keeps the board consistent |
| AiUndo.ConsistentRoundTrip | ai/ai.py:365-446 | from a consistent board, doing such an action keeps it consistent and undoing it gives back the very same game |
| AiUndo.UndoBombAsWrittenGainsBomb | ai/ai.py:378-444 | as written, a bomb with none left changes nothing, yet its undo hands the player a bomb |
| AiUndo.PreviousUndoesNext | ai/ai.py:604-607 | `previous_player` and `next_player` are inverse to each other |
| AiMemo.MemoPattern | ai/ai.py:306-308 | the pattern has one position per character of the key it is meant for |
| AiMemo.MemoKeepsExactly | ai/ai.py:306-313 | for keys without a newline, the pattern matches exactly the keys of the right length that agree with the board state at every position after the prefix where the state does not hold a '1' |
| AiMemo.CurrentKeyKept | ai/ai.py:306-313 | the key of the current board at any one-character search level is always kept |
| AiMemo.KeptKeys | ai/ai.py:300-313 | an entry whose key has no newline survives `clean_memo`, value unchanged, exactly when the key has the pattern's length and agrees with the board state after the prefix wherever the state does not hold a '1' |
| AiPositions.PositionsNearPawn | ai/ai.py:129-143 | exactly the wall spots within Manhattan distance `radius` of the pawn |
| AiPositions.BlockingWallBounds | ai/ai.py:199-216 | at most one position; none for a diagonal step; it never lies in the last row or column |
| AiPositions.BlockingWallTouchesStep | ai/ai.py:199-216 | for a one-cell step on the board there is exactly one position; it is a wall spot that touches both cells of the step |
| AiPositions.FallbackBehind | ai/ai.py:161-173 | the fallback positions lie one row from the pawn on the side away from its goal row (up for pawns after the first, which head for the last row; down for the first, which heads for row 0), on the board, in the pawn's column or the one to the left |
| AiPositions.PathBlockingPositions | ai/ai.py:145-175 | with a readable path, exactly the positions blocking some step of it; otherwise the fallback positions |
| AiPositions.AddBlock | ai/ai.py:189-195 | adds exactly the wall spots in the 3x3 block around the midpoint |
| AiPositions.ShortcutPositions | ai/ai.py:177-197 | exactly the wall spots in the 3x3 block around the midpoint (floor division) of the pawn and some other pawn |
| AiPositions.StrategicPositions | ai/ai.py:108-127 | exactly the wall spots that some pawn contributes: near it, blocking its path, or, for the moving pawn, around a midpoint |
| Ai.BasicActions | ai/ai.py:49-68 | one move per legal destination from the pawn's cell, then a bomb at its cell when it has one |
| Ai.AI.constructor | ai/ai.py:33-39 | the search memo starts as the stored cache when caching is enabled and empty otherwise; the wall memo holds only wall actions |
| Ai.AI.DestroyWall | ai/ai.py:395-405 | an unlisted wall of the copy is listed and, if still on the board, removed and counted for its owner |
| Ai.AI.BombSweepCell | ai/ai.py:386-405 | one cell of the sweep lists exactly the copy's walls touching that cell, each once, and counts them per owner |
| Ai.AI.BombSweep | ai/ai.py:383-405 | the destroyed list holds exactly the blasted walls, removed from the board, with per-owner counts |
| Ai.AI.Blast | ai/ai.py:382-410 | the board becomes the bombed game; the record lists the blasted walls and the refunds per owner; the cached state is dropped exactly when some wall was hit |
| Ai.AI.DoAction | ai/ai.py:365-414 | the board becomes the action's result, and the undo record says exactly what was placed, destroyed, refunded and spent; the cached state, as it stands before the closing read of the board string, is dropped by a new wall and by a spent bomb that hit a wall |
| Ai.AI.RestoreDestroyed | ai/ai.py:433-437 | the destroyed walls not on the board are put back; the cached state is dropped exactly when one was missing |
| Ai.AI.TakeBackReturns | ai/ai.py:439-442 | each pawn with a refund loses exactly that many walls |
| Ai.AI.UndoAction | ai/ai.py:421-446 | the board becomes the undone game (with the bomb returned only if one was spent), and the cached state is dropped by any wall removed or put back; with `DoUndoRoundTrip` this is the game before `DoAction` |
| Ai.AI.PreviousPlayerTurn | ai/ai.py:604-607 | the turn passes to `(player + num_players - 1) % num_players` |
| Ai.AI.CleanMemo | ai/ai.py:300-313 | with caching enabled the memo is untouched; otherwise exactly the entries whose key the eviction pattern matches are kept |
| Ai.AI.TryWall | ai/ai.py:95-104 | a wall is accepted exactly when `can_put_wall` would accept it; walls, pawns and player are unchanged; only a wall that passes the counter and collision checks reopens its flags and drops the cached state |
| Ai.AI.WallsAt | ai/ai.py:93-104 | exactly the accepted walls at one position, in either orientation, none twice; the flags of the walls tried are reopened and the cached state dropped if any was tried |
| Ai.AI.WallsAtAll | ai/ai.py:92-104 | exactly the accepted walls at the given positions, none twice; the flags of the walls tried are reopened and the cached state dropped if any was tried |
| Ai.AI.GenerateStrategicWalls | ai/ai.py:83-106 | exactly the wall actions at strategic positions that `can_put_wall` accepts, each (position, orientation) once; walls, pawns and player are unchanged; the flags and cached state are as the probes leave them, and on a consistent board the flags are unchanged |
| Ai.ProbesKeepFlags | ai/ai.py:83-106 | on a consistent board the probes of `_generate_strategic_walls` leave every flag as it was |
| Ai.AI.WallActionsFor | ai/ai.py:73-79 | a remembered layout returns its stored walls and touches neither memo nor board; a new one is generated (exactly the accepted strategic walls, each once, flags and cached state as the probes leave them) and remembered; the wall memo keeps holding only wall actions |
| Ai.AI.AvailableActions | ai/ai.py:48-81 | the actions are `OrderActions` of the basic actions plus the memo's walls for the layout when the player has walls left; their multiset is the basic actions plus those walls, all wall actions; on a miss the walls are exactly the accepted strategic ones, each once, and are remembered; the board keeps walls, pawns and player, and on a consistent board its flags; the cached state is stated apart from the read of the board string that gives the layout key |

## Left out

- `think`, `move` and `flush_cache`, the alpha-beta search itself, are not
  modelled. Neither are the `_last_states` history of board strings and the
  loop penalty. They depend on the distance module and the heuristics,
  which are not part of this model.
- Drawing, mouse handling, buttons, logging and the network server are out
  of scope, as is `create_ai_copy`. The board state string `Board.state` is
  a parameter; its caching is modelled as a cache that is dropped.
- `Pawn.can_reach_goal` and `pawn.distances.shortest_path` come from pawn
  and distance modules that are not part of this model. They are
  parameters (a predicate over the placed walls and one optional path per
  pawn). Only an exception raised while reading the path is modelled as
  reaching the fallback; an exception in the middle of the loop is not.
- `Pawn.valid_moves` is a parameter, the list of legal destinations.
- Python objects are identified by position: the pawn that is moving is
  the index of the current player, and `pawn in self.board.pawns[1:]` is
  "index at least 1". Wall owners are natural numbers.
- AiRules.WallPriority: with no opponent the source scores every wall minus
  infinity. The model scores every wall 0. Both give every wall the same
  score. The board always has two pawns, so this case does not arise.
- The memo keeps its scores as exact reals, where the source uses floats.
  The wall-action memo, a module global in the source, is a field of the
  AI class. The persistent cache's contents are a constructor parameter.
- AiMemo.MemoKeepsExactly: stated for keys without a newline (search keys
  are digit strings). The character-class meaning of a non-digit
  board-state character inside the regular expression is not modelled;
  characters other than '1' match themselves.
- Ai.AI.DoAction and Ai.AI.UndoAction: a move sets the pawn's cell and
  leaves the board's cached state string alone. `Pawn.move_to` may also
  drop it, but `entities/pawn.py` is not part of this model.
- Ai.AI.DoAction, Boards.Board.DoAction and Ai.AI.AvailableActions: reading
  `Board.state` computes the board string and stores it in the cache. The
  AI's `do_action` ends with such a read (ai/ai.py:417), the board's
  `do_action` does when the mover has an AI (entities/board.py:637), and
  `available_actions` reads it for the layout key (ai/ai.py:71). The string
  is a parameter here, so these reads are not modelled: the `state` clauses
  describe the cache as the mutations leave it, before those reads fill it.
- AiPositions.FallbackBehind: the source's comments call the fallback rows
  "in front of" the pawn, but the code picks the row behind it, on the side
  of its own start row. The model follows the code.
- Boards.Board.constructor: the cells and their initial flags
  (`entities/cell.py`) are not part of this model, nor is the `Pawn`
  constructor. The pawns and the flags are parameters: the pawns must
  stand where the board puts them, and every cell side a wall can close
  must start open.
- Integers are unbounded, as in Python.

## Findings

| source | as written | input that shows it | evidently intended | confidence | as-written member | corrected member |
|---|---|---|---|---|---|---|
| ai/ai.py:378-444 | `do_action` returns early for a power bomb when the player has no bomb left, but `undo_action` of a power bomb always adds one bomb back | a current player with `power_bombs == 0`; do then undo `ActionPowerBomb(c)` | undo gives a bomb back only when `do_action` spent one, so do/undo is the identity | not executed | AiUndo.UndoBombAsWrittenGainsBomb | AiUndo.DoUndoRoundTrip |
