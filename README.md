# Kakaw rules engine in Dafny

This project models the rules engine of Kakaw, a two-player board game with bird pieces. The board is a map from grid cells to pieces. Each player starts with a BOSS on the board and five pieces in reserve: REGULAR, SHOOTER, HIT_MAN, AGENT and BOMBER.

On their turn, a player does one of three things:
- places a reserve piece next to one of their own pieces;
- moves a piece by its type's offset table;
- takes one of their non-BOSS pieces back into the reserve.

Every accepted action has to leave the occupied cells as one 8-connected group, inside a 4 by 4 box. A player wins when the other side's BOSS has all four orthogonal sides occupied or lying at the edge.

The modules follow the program:

- `Model` covers the data classes of `model/Model.kt` and `calculateBoardBounds`.
- `Geometry` covers the neighbourhood lists and the per-type offset table (`allowedMovesMap`).
- `Connectivity` covers the breadth-first search `isMoveValidBoardState`. It is a method with loop invariants, proved equal to a walk-based definition of connectivity.
- `Rules` covers:
  - `isMoveValid` (a function) and `isPlacementValid` (a method, with its flag loop and early return);
  - the structural re-check `isValidMoveAndGetUpdatedBoard`;
  - `isEdgePositionForBoss` and `checkWinCondition`.
- `Setup` covers `initializeGame`, `createPlayerBirds`, the invariant every published board keeps, and concrete positions that show how the placement and win rules read.
- `Game` covers the handlers and the board screen:
  - `handleTap`, `handleRemove`, `handleMoveSelection`, `updateBoardAndCheckWin` and `updatePlayerBirds`.
  - Each handler is a method on values, proved against a specification function of the old state (`AfterPlacement`, `AfterMove`, `AfterRemoval`, `ReservesAfterPlacement`, …).
  - The screen's state cells are the fields of class `KakawGame`: game state, two reserves, selected bird, selected cell, action dialog, move mode and win dialog.
  - Its methods are the tap dispatcher and the dialog and reserve callbacks. They keep the invariant `Valid()`: the board is connected, has at most four distinct rows and columns, and holds both bosses; each reserve holds only its owner's non-BOSS pieces; a selected bird is in its owner's reserve.

Some rules a reader of the game might expect are not what the Kotlin code does; the model follows the code:
- AGENT moves one orthogonal step. There is no sliding and no path blocking.
- A cell counts as "edge" for the win check only when exactly four distinct rows (or columns) are occupied. Lying outside the bounding box is not enough.
- `checkWinCondition` looks at the bosses in the board's insertion order, not in row-major order. The model fixes no order at all (see "## Left out").
- After a win nothing is locked; the handlers only report the winner.
- The destination of a move may touch only the moving piece itself. `SelfTouchingMoveDisconnects` shows that such a move leaves the hive disconnected, so the connectivity re-check after `isMoveValid` rejects it; `SelfTouchingMoveIsRechecked` is one such move on the starting board.

## Model

| member | source | states |
|---|---|---|
| Model.PictureIdentifiesPiece | app/src/main/java/com/example/birdgame/model/Model.kt:20-29 | when the twelve drawable ids are distinct, two pieces get the same picture exactly when they have the same type and the same owner |
| Model.CalculateBoardBounds | app/src/main/java/com/example/birdgame/model/Model.kt:48-61 | an empty board gives (0, 0, 0, 0); otherwise every key lies within the box and each of the four bounds is attained by some key |
| Model.Least | app/src/main/java/com/example/birdgame/model/Model.kt:56-58 | `minOrNull` of a non-empty set is a member no larger than any member |
| Model.Greatest | app/src/main/java/com/example/birdgame/model/Model.kt:57-59 | `maxOrNull` of a non-empty set is a member no smaller than any member |
| Model.BoundsIgnoreSelection | app/src/main/java/com/example/birdgame/model/Model.kt:48 | the `selectedPosition` argument has no influence on the bounds |
| Model.BirdEquality | app/src/main/java/com/example/birdgame/model/Model.kt:18 | two birds are equal iff type, owner and drawable id are equal |
| Model.RemovalNeverWidens | app/src/main/java/com/example/birdgame/model/Model.kt:53-61 | the bounds of a board with a key removed lie within the old bounds |
| Model.AddInsideUnchanged | app/src/main/java/com/example/birdgame/model/Model.kt:53-61 | adding a key inside the bounds of a non-empty board leaves the bounds unchanged |
| Geometry.AdjacentPositions | app/src/main/java/com/example/birdgame/GameHandlers.kt:230-241 | eight cells, and a cell is among them iff it is an 8-neighbour |
| Geometry.DirectAdjacentPositions | app/src/main/java/com/example/birdgame/GameHandlers.kt:173-178 | four distinct cells, and a cell is among them iff it is one orthogonal step away |
| Geometry.AllowedMoves | app/src/main/java/com/example/birdgame/GameHandlers.kt:108-132 | every type has a table of four (REGULAR, AGENT, SHOOTER) or eight (HIT_MAN, BOSS, BOMBER) distinct offsets, none of them (0, 0) |
| Geometry.AllowedMovesShape | app/src/main/java/com/example/birdgame/GameHandlers.kt:108-132 | an offset is in a type's table iff it has that type's shape: orthogonal step (REGULAR, AGENT), diagonal step (SHOOTER), king step (HIT_MAN, BOSS), knight jump (BOMBER) |
| Connectivity.ConnectedFromOne | app/src/main/java/com/example/birdgame/GameHandlers.kt:202-204 | a board is connected iff every key is reachable from the start key |
| Connectivity.AddingNeighbourKeepsConnected | app/src/main/java/com/example/birdgame/GameHandlers.kt:164-171 | adding a cell next to an occupied cell of a connected set keeps it connected |
| Connectivity.SearchResult | app/src/main/java/com/example/birdgame/GameHandlers.kt:227 | when the visited set is closed under steps and reachable from the start, its size equals the board's iff the board is connected |
| Connectivity.VisitNeighbours | app/src/main/java/com/example/birdgame/GameHandlers.kt:219-224 | the inner loop marks every occupied 8-neighbour visited, keeps the queue inside the visited set and the visited set inside the board, and visits only reachable cells |
| Connectivity.IsMoveValidBoardState | app/src/main/java/com/example/birdgame/GameHandlers.kt:199-228 | true on an empty board, and otherwise true exactly when the keys are connected by 8-neighbour steps |
| Rules.ConnectedLinesAreContiguous | app/src/main/java/com/example/birdgame/GameHandlers.kt:286-294 | on a connected non-empty board the occupied rows and columns are exactly the intervals of the bounding box |
| Rules.ConnectedFootprintIsFourLines | app/src/main/java/com/example/birdgame/GameHandlers.kt:286-294 | on a connected board the 4 by 4 bounding-box check and the "at most four distinct rows and columns" check agree |
| Rules.SimulatedMove | app/src/main/java/com/example/birdgame/GameHandlers.kt:143-145 | the simulated board has the old keys plus `to` minus `from` (so a "move" onto `from` takes the piece off), the moved piece at `to` and every other entry unchanged |
| Rules.IsMoveValid | app/src/main/java/com/example/birdgame/GameHandlers.kt:134-159 | true iff some 8-neighbour of `to` is occupied on the board before the move, the simulated board has at most four distinct rows and columns, and `to - from` has the type's shape; a valid move never stays in place |
| Rules.IsPlacementValid | app/src/main/java/com/example/birdgame/GameHandlers.kt:161-197 | true iff some 8-neighbour holds an own piece, no orthogonal neighbour holds the enemy BOSS, and the board with the cell added has at most four distinct rows and columns |
| Rules.IsValidMoveAndGetUpdatedBoard | app/src/main/java/com/example/birdgame/GameHandlers.kt:286-294 | returns the board unchanged, with a flag that holds iff it is connected and its bounding box is at most 4 by 4 |
| Rules.IsEdgePositionForBoss | app/src/main/java/com/example/birdgame/GameHandlers.kt:265-271 | true iff exactly four rows are occupied and the cell's row is outside them, or likewise for columns; an edge cell is never occupied |
| Rules.CountBlocking | app/src/main/java/com/example/birdgame/GameHandlers.kt:254-256 | the count is at most the number of cells, and equals it iff every cell is occupied or edge |
| Rules.SurroundedMeansFourSidesBlocked | app/src/main/java/com/example/birdgame/GameHandlers.kt:247-258 | a boss is surrounded iff each of its four orthogonal neighbours is occupied or edge |
| Rules.CheckWinCondition | app/src/main/java/com/example/birdgame/GameHandlers.kt:243-263 | no winner iff no BOSS is surrounded; a reported winner is the opponent of the owner of a surrounded BOSS |
| Setup.HiveFitsFootprint | app/src/main/java/com/example/birdgame/GameHandlers.kt:286-294 | every board satisfying the invariant also passes the 4 by 4 bounding-box check |
| Setup.InitializeGame | app/src/main/java/com/example/birdgame/KakawBoard.kt:60-71 | PLAYER1 to move, width 3, height 4, exactly the PLAYER1 BOSS at (2, 1) and the PLAYER2 BOSS at (1, 1) |
| Setup.InitialHiveInvariant | app/src/main/java/com/example/birdgame/KakawBoard.kt:63-68 | the starting board is connected, has both bosses, and spans rows 1 to 2 of column 1 |
| Setup.CreatePlayerBirds | app/src/main/java/com/example/birdgame/KakawBoard.kt:73-81 | five birds of the given player with their own drawables, one of each non-BOSS type, no two of the same type |
| Setup.EnemyBossBlocksPlacement | app/src/main/java/com/example/birdgame/GameHandlers.kt:180-185 | a cell orthogonally next to the enemy BOSS is never a valid placement |
| Setup.OpeningPlacementBelowBoss | app/src/main/java/com/example/birdgame/GameHandlers.kt:161-197 | on the starting board PLAYER1 may place at (3, 1) |
| Setup.OpeningPlacementNextToEnemyBoss | app/src/main/java/com/example/birdgame/GameHandlers.kt:180-185 | on the starting board PLAYER1 may not place at (0, 1), next to the enemy BOSS |
| Setup.OpeningPlacementDetached | app/src/main/java/com/example/birdgame/GameHandlers.kt:164-171 | on the starting board PLAYER1 may not place at (3, 3), which touches none of its pieces |
| Setup.SurroundedBossLoses | app/src/main/java/com/example/birdgame/GameHandlers.kt:243-263 | a PLAYER2 boss with all four sides occupied makes PLAYER1 the winner |
| Setup.FreeSideIsNoEdge | app/src/main/java/com/example/birdgame/GameHandlers.kt:265-271 | with three rows and columns occupied, a free cell beside the PLAYER1 boss is no edge, so PLAYER2 does not win |
| Setup.EdgeCountsAsBlocking | app/src/main/java/com/example/birdgame/GameHandlers.kt:269 | with exactly four rows occupied, the cell above the top row is edge |
| Setup.EdgeSurroundedBossLoses | app/src/main/java/com/example/birdgame/GameHandlers.kt:254-259 | a boss boxed in by three pieces and that edge cell loses |
| Setup.ThreeRowsAreNoEdge | app/src/main/java/com/example/birdgame/GameHandlers.kt:265-271 | the same position with only three rows occupied has no edge cell there and the boss is not surrounded |
| Game.MovedBoard | app/src/main/java/com/example/birdgame/GameHandlers.kt:88-90 | the moved board has the old keys minus `from` plus `to`, the moved piece at `to`, and every other entry unchanged |
| Game.NextPlayerAfterMove | app/src/main/java/com/example/birdgame/GameHandlers.kt:95 | without `isBossMove` the turn passes to the opponent; with it, always to PLAYER2 |
| Game.AfterPlacement | app/src/main/java/com/example/birdgame/GameHandlers.kt:26-37 | the placement specification: at most the cell `position` is added, every piece already on the board stays, the dimensions are kept |
| Game.AfterMove | app/src/main/java/com/example/birdgame/GameHandlers.kt:84-96 | the move specification: the number of pieces is kept, every piece but the moved one stays, the dimensions are kept |
| Game.AfterRemoval | app/src/main/java/com/example/birdgame/GameHandlers.kt:59-69 | the removal specification: at most the cell `position` is emptied, every other piece stays, the dimensions are kept |
| Game.ReservesAfterPlacement | app/src/main/java/com/example/birdgame/GameHandlers.kt:35 | the opponent's reserve is unchanged and the mover's never grows |
| Game.SelectionAfterPlacement | app/src/main/java/com/example/birdgame/GameHandlers.kt:36 | the selected bird is either kept or cleared |
| Game.ReservesAfterRemoval | app/src/main/java/com/example/birdgame/GameHandlers.kt:68 | the opponent's reserve is unchanged and the mover's old reserve is a prefix of the new one |
| Game.PlacementRecheckPasses | app/src/main/java/com/example/birdgame/GameHandlers.kt:27-33 | on a connected board, an allowed placement always passes the connectivity and 4 by 4 re-check |
| Game.PlacementAcceptedIff | app/src/main/java/com/example/birdgame/GameHandlers.kt:26-33 | on a board with the invariant, a placement is accepted iff the cell is empty, the selected bird is the mover's and the placement rule holds |
| Game.MoveRecheckIsConnectivity | app/src/main/java/com/example/birdgame/GameHandlers.kt:87-94 | after `isMoveValid` onto a free cell, the move is accepted iff the moved board is connected |
| Game.PlacementPreservesHive | app/src/main/java/com/example/birdgame/GameHandlers.kt:23-37 | a placement keeps the board connected, within four rows and columns, with both bosses |
| Game.MovedBoardKeepsHive | app/src/main/java/com/example/birdgame/GameHandlers.kt:87-95 | a connected move onto a free cell within four rows and columns keeps the invariant |
| Game.MovePreservesHive | app/src/main/java/com/example/birdgame/GameHandlers.kt:84-96 | a move keeps the invariant |
| Game.RemovalPreservesHive | app/src/main/java/com/example/birdgame/GameHandlers.kt:59-69 | a removal keeps the invariant |
| Game.SelfTouchingMoveDisconnects | app/src/main/java/com/example/birdgame/GameHandlers.kt:136-140 | when `to` touches no occupied cell but `from` and some other piece stays behind, the moved board is not connected, so the re-check rejects the move |
| Game.SelfTouchingMoveIsRechecked | app/src/main/java/com/example/birdgame/GameHandlers.kt:136-140 | a boss step whose destination touches only the moving piece passes `isMoveValid` but is rejected by the re-check |
| Game.PlacementTakesEffect | app/src/main/java/com/example/birdgame/GameHandlers.kt:26-48 | the game state changes iff the placement is accepted, and then the turn passes to the opponent |
| Game.MoveTakesEffect | app/src/main/java/com/example/birdgame/GameHandlers.kt:84-105 | the game state changes iff the move is accepted |
| Game.RemovalTakesEffect | app/src/main/java/com/example/birdgame/GameHandlers.kt:59-73 | the game state changes iff the removal is accepted, and then the turn passes to the opponent |
| Game.OfferedRemovalIsAccepted | app/src/main/java/com/example/birdgame/KakawBoard.kt:374-378 | when the Remove button is shown on a piece of the player to move, the removal it triggers is accepted |
| Game.RemoveFirst | app/src/main/java/com/example/birdgame/GameHandlers.kt:304 | `MutableList.remove` leaves a list without `x` unchanged and otherwise makes it one shorter |
| Game.RemoveFirstDropsFirstOccurrence | app/src/main/java/com/example/birdgame/GameHandlers.kt:304 | the element dropped is the first occurrence of `x`; the rest keep their order |
| Game.RemoveFirstMultiset | app/src/main/java/com/example/birdgame/GameHandlers.kt:306 | as a multiset the result is the input minus one copy of `x` |
| Game.UpdatedReserves | app/src/main/java/com/example/birdgame/GameHandlers.kt:296-308 | only the list of `player` changes: `bird` is appended when adding, its first occurrence removed otherwise |
| Game.RemoveFirstKeepsReserveWellFormed | app/src/main/java/com/example/birdgame/GameHandlers.kt:296-308 | removing from a reserve of its owner's non-BOSS pieces keeps it so |
| Game.InitialReservesWellFormed | app/src/main/java/com/example/birdgame/KakawBoard.kt:135-138 | both starting reserves hold only their owner's non-BOSS pieces |
| Game.InitialStateValid | app/src/main/java/com/example/birdgame/KakawBoard.kt:126-138 | the starting state satisfies the screen invariant |
| Game.PlacementSpendsBird | app/src/main/java/com/example/birdgame/GameHandlers.kt:35 | an accepted placement removes exactly one copy of the selected bird from the mover's reserve and leaves the other reserve untouched |
| Game.PlacementKeepsValid | app/src/main/java/com/example/birdgame/GameHandlers.kt:23-48 | the screen invariant holds after a placement attempt |
| Game.RemovalKeepsValid | app/src/main/java/com/example/birdgame/GameHandlers.kt:59-73 | the screen invariant holds after a removal attempt |
| Game.MoveKeepsValid | app/src/main/java/com/example/birdgame/GameHandlers.kt:84-105 | the screen invariant holds after a move attempt |
| Game.UpdateBoardAndCheckWin | app/src/main/java/com/example/birdgame/GameHandlers.kt:273-284 | the new state carries the new board and next player; a winner is reported iff the new board has one, and it is that winner |
| Game.HandleTap | app/src/main/java/com/example/birdgame/GameHandlers.kt:13-49 | new state, reserves and selected bird as the placement specification says; the selected cell is always cleared; a win is reported only after an accepted placement |
| Game.HandleRemove | app/src/main/java/com/example/birdgame/GameHandlers.kt:51-74 | new state and reserves as the removal specification says; the selected cell is cleared only when the cell held a non-BOSS piece of the mover; a win is reported only after an accepted removal |
| Game.HandleMoveSelection | app/src/main/java/com/example/birdgame/GameHandlers.kt:76-106 | new state as the move specification says; with a selected occupied cell, the selection and move mode end, otherwise nothing changes |
| Game.KakawGame.constructor | app/src/main/java/com/example/birdgame/KakawBoard.kt:126-138 | the initial state cells, with both reserves filled; the invariant holds |
| Game.KakawGame.Tap | app/src/main/java/com/example/birdgame/KakawBoard.kt:200-225 | in move mode a tap is a move; otherwise a tap on a piece of the player to move selects it and opens the dialog; any other tap is a placement; each branch's new state, with the invariant kept |
| Game.KakawGame.MoveTo | app/src/main/java/com/example/birdgame/KakawBoard.kt:200-207 | the move branch: new state as the move specification says, win dialog set when the move wins, reserves unchanged |
| Game.KakawGame.SelectOnBoard | app/src/main/java/com/example/birdgame/KakawBoard.kt:209-212 | the selection branch: the cell is selected and the dialog opens; nothing else changes |
| Game.KakawGame.PlaceSelected | app/src/main/java/com/example/birdgame/KakawBoard.kt:213-223 | the placement branch: new state, reserves and selected bird as the placement specification says, win dialog set when the placement wins |
| Game.KakawGame.RemoveOffered | app/src/main/java/com/example/birdgame/KakawBoard.kt:374-378 | the Remove button is shown iff the dialog is open on a cell without a BOSS whose removal leaves the board connected |
| Game.KakawGame.ChooseMove | app/src/main/java/com/example/birdgame/KakawBoard.kt:296-299 | the dialog closes and move mode starts |
| Game.KakawGame.ChooseRemove | app/src/main/java/com/example/birdgame/KakawBoard.kt:300-312 | the dialog closes; with a selected cell the removal specification applies, otherwise nothing else changes |
| Game.KakawGame.RemoveSelected | app/src/main/java/com/example/birdgame/KakawBoard.kt:302-311 | new state, reserves and selected cell as the removal specification says, win dialog set when the removal wins |
| Game.KakawGame.DismissDialog | app/src/main/java/com/example/birdgame/KakawBoard.kt:313 | the dialog closes |
| Game.KakawGame.DismissWinDialog | app/src/main/java/com/example/birdgame/KakawBoard.kt:317-321 | the win dialog disappears |
| Game.KakawGame.SelectBird | app/src/main/java/com/example/birdgame/KakawBoard.kt:163-168 | a bird in a reserve becomes the selected bird; the invariant is kept |
| Game.KakawGame.ClearBirdSelection | app/src/main/java/com/example/birdgame/KakawBoard.kt:144-148 | the selected bird is cleared; the invariant is kept |

## Left out

- Sound: `MediaPlayer` in `handleTap` (GameHandlers.kt:38-39) and the `Context` parameter. Audio is a foreign call.
- Compose rendering is not modelled: layout, canvas drawing, images, the dialogs' appearance and the derived `boardBounds` cell. None of it changes the rules.
- The conversion of a tap's pixel offset into a cell (KakawBoard.kt:193-198) is floating point. `Tap` takes the cell.
- Which of the nested tap handlers Compose delivers a tap to is not modelled. `Tap`, `SelectBird` and `ClearBirdSelection` are separate operations.
- Android resource ids: `R.drawable` values are fixed at build time. They are a `Drawables` parameter of `GetBirdDrawableResId`, `InitializeGame`, `CreatePlayerBirds` and the constructor.
- TokyoDovesBoard.kt, StartScreen.kt and MainActivity.kt are not part of this model. They are UI and navigation screens.
- The reserves are `MutableList`s changed in place. Here they are `seq` fields that the methods reassign, so aliasing of the lists is not modelled.
- Kotlin's 32-bit `Int` is not modelled. Coordinates are unbounded, so overflow near 2^31 cannot happen in the model. The hive can wander across the grid, but each action changes a coordinate by at most two, so reaching 2^31 takes about 10^9 actions.
- Map iteration order is not modelled: the search takes an arbitrary start key. Its result does not depend on the choice.
- CheckWinCondition: when both bosses are surrounded, the source reports the one that comes first in the board's insertion order. The contract only says that the reported winner is the opponent of some surrounded boss. `UpdateBoardAndCheckWin`, the `won` results of `HandleTap`, `HandleRemove` and `HandleMoveSelection`, and the win dialog of `KakawGame` carry the same gap.
- IsMoveValid: requires `from` to be on the board. The source's `!!` (GameHandlers.kt:144) throws otherwise. Both callers guarantee it: `handleMove` looks the piece up first and returns when there is none (GameHandlers.kt:85), and the board's move highlighting dereferences the same cell itself before calling (KakawBoard.kt:260). The throwing path is never reached.
- The action dialog is drawn only while `showDialog` is set and a cell is selected (KakawBoard.kt:346). That condition is part of `RemoveOffered`. The dialog callbacks do not require it, since their closures do not check it.
