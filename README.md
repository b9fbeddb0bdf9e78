# Quoridor rules engine in Dafny

This project models the rules core of a two-player Quoridor engine (`Quoridor.py`). The board is
9x9: columns `x` run 0..8 from left to right and rows `y` run 0..8 from top to bottom. Player 1
starts at (4, 0) and wins on row 8. Player 2 starts at (4, 8) and wins on row 0. Each player has
ten fences. A fence is a unit-long segment given by an anchor cell and a tag: "v" walls the
anchor's left side and "h" walls its top side.

The project has five modules:

- `Grid` (`grid.dfy`): coordinates, the eight neighbour directions and their offsets, the board
  bounds and the row-major layout (`CoordOf` and `Index`).
- `Board` (`board.dfy`): `Node` holds an occupant and four set-once wall flags. The `GameBoard`
  class keeps the 81 nodes in an array. Its constructor lays them out in row-major order, and
  `EstablishOuterFences` walls the outer edges node by node. There are also the first-match
  searches `find_board_node` and `find_player_node`, and the fresh-board lemmas.
- `Fences` (`fences.dfy`): the `Fence` value and its end point, and the `Player` class with its
  fence budget and its ledger of segments.
- `Moves` (`moves.dfy`): the direction lookup, the move classifier and the SIMPLE, DIAGONAL and
  COMPLICATED validators. Each validator is a pure function over the board's cells.
- `Game` (`game.dfy`): the `QuoridorGame` class. It holds the turn, winner detection, `make_move`,
  `move_pawn` and `place_fence`. Ghost specification functions give what `move_pawn` answers
  (`MoveVerdict`) and what `place_fence` accepts (`FenceAccepted`, `Fenced`). Lemmas relate them to
  the rules on coordinates (`LegalStep`) and to the game invariant (`BoardValid`, `Occupancy`).

The classifier behaves as the code is written, not as the game's rules would have it:

- A straight step of two rows, (0, +-2), is classified SIMPLE. It is validated only against the
  mover's own wall on that side and the target's occupancy. This comes from the guard of the
  two-row case (`Quoridor.py:722`), which reads `(dx == 0 and dy == 2) or dy == -2`.
- For the same reason, (+-1, -2) is classified DIAGONAL.
- A step of two rows up with a column change of two or more has no entry in the direction table.
  Classifying it raises a KeyError. The model returns this as `KeyErrorRaised` from `MovePawn`.
- Any other move is COMPLICATED. Its validator cannot succeed: deciding up or down on a missing
  direction raises a TypeError, which is caught and gives False.
- `place_fence` ignores the result of `add_new_fence`. A player with no fences left can still
  place one; the ledger and budget stay as they are, the walls go up and the turn passes.

## Model

| member | source | states |
|---|---|---|
| Grid.IsOnBoard | portfolio-project-Michelle-Mann-main/Quoridor.py:683-694 | a coordinate is on the board exactly when both components lie in 0..8 (the outer bounds (0,0) and (8,8)) |
| Grid.Index | portfolio-project-Michelle-Mann-main/Quoridor.py:240-273 | each on-board coordinate has one row-major position in 0..80, and that position's coordinate is the one given |
| Grid.UpOrDown | portfolio-project-Michelle-Mann-main/Quoridor.py:757-768 | a direction is "up" exactly when it moves to a smaller row, "down" exactly when it moves to a larger row, and False when the row does not change |
| Grid.OppositeDirection | portfolio-project-Michelle-Mann-main/Quoridor.py:770-781 | the result is always a wall side; for a wall side it is the side whose offset is the negated offset (the side facing it); any other direction gives left |
| Grid.OppositeUndoesStep | portfolio-project-Michelle-Mann-main/Quoridor.py:156-167 | for a wall side, the opposite of the opposite is the side itself, and stepping to the neighbour and back returns to the start |
| Board.WithWall | portfolio-project-Michelle-Mann-main/Quoridor.py:86-128 | setting a wall raises that side's flag, leaves the other sides, the name and the occupant alone, never lowers a wall, and leaves an already-walled node unchanged |
| Board.GameBoard.SetWall | portfolio-project-Michelle-Mann-main/Quoridor.py:86-128 | set_*_wall reports "Wall already exists" exactly when the flag was already up; otherwise only that node's flag changes; afterwards the flag is up |
| Board.FindBoardNode | portfolio-project-Michelle-Mann-main/Quoridor.py:275-295 | the search returns the first node from pos on with the given name, or nothing when no such node exists |
| Board.FindPlayerNode | portfolio-project-Michelle-Mann-main/Quoridor.py:297-317 | the search returns the first node from pos on holding the given player, or nothing when no node holds it |
| Board.FindBoardNodeNamed | portfolio-project-Michelle-Mann-main/Quoridor.py:275-295 | on a row-major board the lookup of an on-board coordinate finds its indexed cell, and the lookup of any off-board coordinate finds nothing |
| Board.GameBoard.constructor | portfolio-project-Michelle-Mann-main/Quoridor.py:240-273 | create_board makes 81 wall-less, empty nodes; the k-th is named (k mod 9, k div 9) |
| Board.GameBoard.EstablishOuterFences | portfolio-project-Michelle-Mann-main/Quoridor.py:319-362 | each node gets its edge walls (left on column 0, up on row 0, down on row 8, right on column 8); the last node gets down and right |
| Board.FreshNode | portfolio-project-Michelle-Mann-main/Quoridor.py:319-362 | the k-th fresh node is named (k mod 9, k div 9), holds no player, and has each wall up exactly when that side is on the board's edge |
| Board.FreshBoard | portfolio-project-Michelle-Mann-main/Quoridor.py:240-273 | the fresh board has 81 row-major cells, nobody on them, walls exactly on the outer edges, and every interior edge open and mirrored |
| Fences.Fence.FindEnd | portfolio-project-Michelle-Mann-main/Quoridor.py:437-446 | the end point is the anchor's neighbour below for "v" and to the right for "h"; Fences.EntryIsWalledEdge relates the segment to the wall flags |
| Fences.EntryIsWalledEdge | portfolio-project-Michelle-Mann-main/Quoridor.py:437-446 | the end point is one row down for "v" and one column right for "h"; the ledger segment is the anchor's left edge (right edge of its left neighbour) for "v", and its top edge (bottom edge of the cell above) for "h" |
| Fences.Player.constructor | portfolio-project-Michelle-Mann-main/Quoridor.py:467-473 | a player starts at home with ten fences and an empty ledger |
| Fences.Player.RemoveFence | portfolio-project-Michelle-Mann-main/Quoridor.py:515-518 | the budget drops by exactly one and the new budget is returned; ledger and position are unchanged |
| Fences.Player.IsFenceAvailable | portfolio-project-Michelle-Mann-main/Quoridor.py:546-556 | with the ledger consistent with the budget, a fence is available exactly when fewer than ten are in the ledger; Fences.Player.AddNewFence uses it as its guard |
| Fences.Player.AddNewFence | portfolio-project-Michelle-Mann-main/Quoridor.py:520-556 | with a fence left, appends [[x, x'], [y, y']] and spends one fence; with none left, fails and changes nothing; the ledger stays consistent with the budget, which stays in 0..10 |
| Moves.UnitDirection | portfolio-project-Michelle-Mann-main/Quoridor.py:709-718 | the direction table names a unit step exactly when that step is one direction's offset, and the name found has that offset |
| Moves.LcdDirection | portfolio-project-Michelle-Mann-main/Quoridor.py:696-726 | the lookup yields the mover's own cell exactly for a zero step; a KeyError exactly for two rows up with a column change of two or more; a direction exactly for unit steps, (0, +2) and (+-1 or 0, -2); that direction's column offset equals the step's, and its row offset is the step's or half of it |
| Moves.MoveType | portfolio-project-Michelle-Mann-main/Quoridor.py:728-755 | the full classification: SIMPLE for (0, +-1), (0, +-2), (+-1, 0); DIAGONAL for (+-1, +-1) and (+-1, -2); the KeyError for (dx, -2) with dx outside -1..1; the own cell for (0, 0); COMPLICATED otherwise |
| Moves.UpOrDownOf | portfolio-project-Michelle-Mann-main/Quoridor.py:757-768 | up_or_down on a looked-up heading raises the TypeError exactly when there is no heading (False); otherwise it gives the direction's "up"/"down", or False for a row-preserving direction |
| Moves.IsValidCompMove | portfolio-project-Michelle-Mann-main/Quoridor.py:850-898 | the COMPLICATED validator never answers True on any input (each path returns False or raises, the last one at the missing get_nearby_walls); on the inputs move_pawn gives it (its own cell, or a move with no heading and so the caught TypeError) it answers False |
| Moves.IsValidSimpleMove | portfolio-project-Michelle-Mann-main/Quoridor.py:796-811 | the SIMPLE validator accepts only SIMPLE moves; its exact acceptance condition is stated by Moves.SimpleMoveValidity |
| Moves.WallPlayerExistence | portfolio-project-Michelle-Mann-main/Quoridor.py:783-794 | on a row-major board it holds exactly when the cell one step in direction v is on the board, is walled on side v and holds the opponent |
| Moves.IsValidDiagMove | portfolio-project-Michelle-Mann-main/Quoridor.py:813-848 | the DIAGONAL validator accepts only DIAGONAL moves; its exact acceptance condition is stated by Moves.DiagonalMoveValidity |
| Moves.SimpleMoveValidity | portfolio-project-Michelle-Mann-main/Quoridor.py:796-811 | a SIMPLE move is valid exactly when the mover's cell is open on the side of travel and the target cell is empty |
| Moves.DiagonalMoveValidity | portfolio-project-Michelle-Mann-main/Quoridor.py:783-848 | a DIAGONAL move is valid exactly when the cell straight ahead holds the opponent and is walled on its far side, the opponent's cell is open toward the mover and toward the target side, and the target is empty |
| Game.Opponent | portfolio-project-Michelle-Mann-main/Quoridor.py:645-651 | the opposing player is 1 or 2 and never the player itself |
| Game.QuoridorGame.SetWhoseMove | portfolio-project-Michelle-Mann-main/Quoridor.py:635-643 | the turn passes from 1 to 2 and from anything else to 1 |
| Game.WonIffGoalRow | portfolio-project-Michelle-Mann-main/Quoridor.py:653-671 | with one cell per pawn, player 1 has won exactly when its pawn is on row 8, and player 2 exactly when its pawn is on row 0 |
| Game.QuoridorGame.IsWinner | portfolio-project-Michelle-Mann-main/Quoridor.py:653-671 | walking the winning row reports true exactly when the player stands on one of its cells |
| Game.FindPlayerUnderOccupancy | portfolio-project-Michelle-Mann-main/Quoridor.py:297-317 | with one cell per pawn, the player search finds each pawn's own cell |
| Game.VerdictAtPawns | portfolio-project-Michelle-Mann-main/Quoridor.py:915-954 | once the first checks pass, move_pawn runs the validator of the move's kind on the two pawns' cells, and the KeyError escapes |
| Game.ValidatorsMatchLegalStep | portfolio-project-Michelle-Mann-main/Quoridor.py:783-848 | on the pawns' own cells, the SIMPLE and DIAGONAL validators accept exactly the legal steps stated on coordinates |
| Game.MovePawnVerdict | portfolio-project-Michelle-Mann-main/Quoridor.py:915-954 | move_pawn succeeds exactly when neither pawn is on its goal row, it is the caller's turn, the target is on the board and the step is legal; the KeyError escapes exactly for two rows up with a column change of two or more |
| Game.QuoridorGame.MovePawn | portfolio-project-Michelle-Mann-main/Quoridor.py:915-954 | the answer is the verdict above; on success the pawn moves, the old cell is emptied, the position is updated and the turn passes; otherwise nothing changes; the game invariant holds afterwards |
| Game.MovedCellsOccupancy | portfolio-project-Michelle-Mann-main/Quoridor.py:900-913 | moving a pawn onto an empty on-board cell keeps names and walls, and leaves each pawn on exactly one cell, the two cells distinct |
| Game.MoveKeepsOnePawnEach | portfolio-project-Michelle-Mann-main/Quoridor.py:915-954 | after any successful move, each player id occupies exactly one cell, the two distinct, and the board stays valid |
| Game.QuoridorGame.MakeMove | portfolio-project-Michelle-Mann-main/Quoridor.py:900-913 | the target holds the player, the old cell is emptied, the position becomes the target and the turn passes; the game invariant is kept |
| Game.RaiseEdgeKeepsMirrored | portfolio-project-Michelle-Mann-main/Quoridor.py:976-998 | raising both flags of one interior edge keeps every shared edge mirrored |
| Game.FenceKeepsBoardValid | portfolio-project-Michelle-Mann-main/Quoridor.py:976-998 | a fence on an open edge of an on-board anchor has its neighbour on the board (column-0 left and row-0 up edges are pre-walled); exactly those two mirrored flags go up; no wall comes down; occupants stay; the board stays valid |
| Game.QuoridorGame.WallBothSides | portfolio-project-Michelle-Mann-main/Quoridor.py:976-998 | the two set_*_wall calls of a fence leave the cells as the fenced board |
| Game.QuoridorGame.CommitFence | portfolio-project-Michelle-Mann-main/Quoridor.py:976-998 | the accepting branch of place_fence: the cells become the fenced board, the turn flips, the ledger records the fence and spends one only if a fence was left, pawns stay put, and the game invariant is kept |
| Game.QuoridorGame.PlaceFence | portfolio-project-Michelle-Mann-main/Quoridor.py:956-1004 | succeeds exactly when nobody has won, it is the caller's turn, the anchor is on the board and the tagged edge is open; the budget is not consulted; on success both flags go up, the turn flips and the ledger records the fence if one was left; on failure nothing changes |
| Game.StartValid | portfolio-project-Michelle-Mann-main/Quoridor.py:586-608 | the starting board is valid, with pawn 1 only on (4, 0), pawn 2 only on (4, 8), and nobody having won |
| Game.QuoridorGame.InitializeStartPositions | portfolio-project-Michelle-Mann-main/Quoridor.py:586-608 | each pawn's position becomes its home and its home cell records the player; the ledgers are untouched |
| Game.QuoridorGame.constructor | portfolio-project-Michelle-Mann-main/Quoridor.py:565-584 | a new game has the fenced board with both pawns at home, ten fences and an empty ledger each, player 1 to move, and the game invariant |
| Game.OpeningMove | portfolio-project-Michelle-Mann-main/Quoridor.py:915-954 | from the start, player 1 may step from (4, 0) to (4, 1), and player 2 may not move out of turn |
| Game.OpeningReply | portfolio-project-Michelle-Mann-main/Quoridor.py:915-954 | after that step, player 2 may step sideways from (4, 8) to (5, 8) |
| Game.OpeningFence | portfolio-project-Michelle-Mann-main/Quoridor.py:956-1004 | on the starting board, player 1's "v" fence at (1, 1) is accepted and walls the left side of (1, 1) and the right side of (0, 1) |

## Left out

- `print_board`, `display`, `rec_display`, `__repr__` and `main` are not modelled. They do console output, plotting with an external library, and a demo driver.
- The linked list of nodes is not modelled. This covers `set_next`, `get_next`, `set_head`, `is_empty` and the recursive traversals. An array of 81 nodes in row-major order replaces it; only the row-major naming is kept.
- `to_plain_board` is not modelled. It only builds a display copy.
- The cached neighbour fields (`set_nearby_nodes`, `get_nearby_nodes`) become the pure offset function `Nearby`. `get_list_of_walls` becomes `Wall`.
- `is_player_turn` is the predicate `IsPlayerTurn` and has no contract of its own.
- The getters of every class are not modelled separately; the model reads the fields directly.
- A player's position before `initialize_start_positions` runs (None in the code) is not modelled. The position is the home from construction on.
- Exceptions are result values, not control flow: the KeyError from the direction table is `KeyErrorRaised`, and the caught `YouAlreadyLiveHereError` and TypeError become refusals.
- Some node or player lookups would crash if they failed: in `move_pawn` and the validators, and the neighbour lookup in `place_fence`. The model treats a failed lookup as a refusal. The lemmas show these lookups always succeed on a valid board (`FindBoardNodeNamed`, `FindPlayerUnderOccupancy`, `FenceKeepsBoardValid`).
- `Fence.find_end` with a tag other than "v" or "h" (it leaves the end point unset) is not modelled. `place_fence` refuses any other tag before a fence is created.
- Moves.IsValidCompMove: the jump check past the up-or-down test (`Quoridor.py:881-898`) reads the neighbour fields of the opponent's node, which are only filled once `set_nearby_nodes` has run on it; the model always uses the computed neighbour. Where the cache would be empty the source answers False and the model may raise instead. Neither ever answers True, and move_pawn never reaches that code.
- The board size is fixed at 9x9. `create_board` and `establish_outer_fences` take column and row counts, but the game only ever uses the defaults of 9, so other sizes are not modelled.
- Python compares the winner flags with `is False`. The model uses plain boolean tests, which agree for the bool values involved.
- The `/ 2` of the two-row case produces a float that is used as a table key. The model uses integer halving, which gives the same key for the even steps involved.
- `add_new_fence` returns None on success. The model returns true.
- The code does not check that both players keep a path to their goal rows after a fence, and the model does not add that rule.
- A fence anchored so that its far end leaves the board (for example "h" at column 8) is accepted as the code accepts it. Only the anchor's edge and its mirror are walled, and no crossing-fence check is made, because the code makes none.
